/**
 * `ClasspathWriter.write`: the `.classpath` document of the root project.
 * The document is the sequence of what is written into the `classpath`
 * element: source entries in ascending order, one library or variable entry
 * per located artifact in ascending path order, the JRE container, the output
 * directory, and the merged markup when it is not blank.
 */
module ClasspathWriter {
  import opened Wrappers
  import opened Strings
  import opened PathNormalizer
  import opened Maven
  import opened Filters
  import opened SourceRoots
  import opened Dependencies

  /** The `kind` attribute of a `classpathentry`. */
  datatype Kind = Src | Var | Lib | Con | Output

  /** A child of the `classpath` element. */
  datatype Item = Entry(kind: Kind, path: string) | Markup(text: string)

  const JreContainer: string := "org.eclipse.jdt.launching.JRE_CONTAINER"

  predicate IsKind(item: Item, kind: Kind) {
    item.Entry? && item.kind == kind
  }

  /** The XML writer, reduced to the children it has written so far. */
  class ClasspathXmlWriter {
    var items: seq<Item>

    constructor ()
      ensures items == []
    {
      items := [];
    }

    /** `writeClasspathEntry(writer, kind, path)`: one `classpathentry` element. */
    method WriteClasspathEntry(kind: Kind, path: string)
      modifies this
      ensures items == old(items) + [Entry(kind, path)]
    {
      items := items + [Entry(kind, path)];
    }

    /** `writer.writeMarkup(text)`. */
    method WriteMarkup(text: string)
      modifies this
      ensures items == old(items) + [Markup(text)]
    {
      items := items + [Markup(text)];
    }
  }

  // ---------------------------------------------------------------- the parts of the document

  /** `addAll` of the roots of each project in turn onto `roots`. */
  function RootsUnion(roots: seq<string>, projects: seq<Project>, rootsOf: Project -> seq<string>): seq<string>
    decreases |projects|
  {
    if projects == [] then roots
    else TreeSetAddAll(RootsUnion(roots, projects[..|projects| - 1], rootsOf), rootsOf(projects[|projects| - 1]))
  }

  /** The union stays a strictly ascending set and holds exactly the strings of all its parts. */
  lemma {:induction false} RootsUnionCorrect(roots: seq<string>, projects: seq<Project>, rootsOf: Project -> seq<string>)
    requires StrictlySorted(roots)
    ensures StrictlySorted(RootsUnion(roots, projects, rootsOf))
    ensures forall p :: p in RootsUnion(roots, projects, rootsOf) <==>
      p in roots || exists i :: 0 <= i < |projects| && p in rootsOf(projects[i])
    decreases |projects|
  {
    if projects != [] {
      var init := projects[..|projects| - 1];
      var last := projects[|projects| - 1];
      RootsUnionCorrect(roots, init, rootsOf);
      TreeSetAddAllCorrect(RootsUnion(roots, init, rootsOf), rootsOf(last));
      forall p ensures (exists i :: 0 <= i < |projects| && p in rootsOf(projects[i])) <==>
        (exists i :: 0 <= i < |init| && p in rootsOf(init[i])) || p in rootsOf(last)
      {
        if exists i :: 0 <= i < |projects| && p in rootsOf(projects[i]) {
          var i :| 0 <= i < |projects| && p in rootsOf(projects[i]);
          if i < |init| { assert init[i] == projects[i]; }
        }
        if exists i :: 0 <= i < |init| && p in rootsOf(init[i]) {
          var i :| 0 <= i < |init| && p in rootsOf(init[i]);
          assert init[i] == projects[i];
        }
      }
    }
  }

  /** The source roots of the root project and of every project, as one `TreeSet`. */
  function AllSourceRoots(root: Project, projects: seq<Project>, rootDirectory: string,
                          includeResourcesDirectory: bool, isDirectory: string -> bool): seq<string>
  {
    RootsUnion(CollectedRoots(root, rootDirectory, includeResourcesDirectory, isDirectory), projects,
               project => CollectedRoots(project, rootDirectory, includeResourcesDirectory, isDirectory))
  }

  /** The path is a source root of the root project or of one of the projects. */
  ghost predicate SourceRootOf(p: string, root: Project, projects: seq<Project>, rootDirectory: string,
                               includeResourcesDirectory: bool, isDirectory: string -> bool) {
    p in CollectedRoots(root, rootDirectory, includeResourcesDirectory, isDirectory)
    || exists i :: 0 <= i < |projects| && p in CollectedRoots(projects[i], rootDirectory, includeResourcesDirectory, isDirectory)
  }

  /** The merged source roots are strictly ascending and are those of the root project and every project. */
  lemma AllSourceRootsCorrect(root: Project, projects: seq<Project>, rootDirectory: string,
                              includeResourcesDirectory: bool, isDirectory: string -> bool)
    ensures StrictlySorted(AllSourceRoots(root, projects, rootDirectory, includeResourcesDirectory, isDirectory))
    ensures forall p :: p in AllSourceRoots(root, projects, rootDirectory, includeResourcesDirectory, isDirectory) <==>
      SourceRootOf(p, root, projects, rootDirectory, includeResourcesDirectory, isDirectory)
  {
    var rootsOf := project => CollectedRoots(project, rootDirectory, includeResourcesDirectory, isDirectory);
    var first := CollectedRoots(root, rootDirectory, includeResourcesDirectory, isDirectory);
    CollectedRootsSorted(root, rootDirectory, includeResourcesDirectory, isDirectory);
    RootsUnionCorrect(first, projects, rootsOf);
    assert AllSourceRoots(root, projects, rootDirectory, includeResourcesDirectory, isDirectory)
      == RootsUnion(first, projects, rootsOf);
    forall i | 0 <= i < |projects|
      ensures rootsOf(projects[i]) == CollectedRoots(projects[i], rootDirectory, includeResourcesDirectory, isDirectory)
    {
    }
  }

  /** The filters of the `OrArtifactFilter` handed to the transitive resolution. */
  function TransitiveFilters(env: Environment): seq<ArtifactFilter> {
    [env.scopeFilter("compile"), env.scopeFilter("provided"), env.scopeFilter("test")]
  }

  /** The transitive filter includes exactly the compile, provided and test artifacts. */
  lemma TransitiveFiltersIncludes(env: Environment, a: Artifact)
    ensures AnyIncludes(TransitiveFilters(env), a) <==>
      env.scopeFilter("compile")(a) || env.scopeFilter("provided")(a) || env.scopeFilter("test")(a)
  {
    var filters := TransitiveFilters(env);
    if env.scopeFilter("compile")(a) { assert filters[0](a); }
    if env.scopeFilter("provided")(a) { assert filters[1](a); }
    if env.scopeFilter("test")(a) { assert filters[2](a); }
  }

  /** The artifact set after the optional transitive resolution. */
  function Resolved(s: seq<Artifact>, settings: Settings, env: Environment): seq<Artifact> {
    if settings.resolveTransitiveDependencies
    then AddArtifacts([], env.resolveTransitively(s, TransitiveFilters(env)))
    else s
  }

  /** The direct dependencies of the root project and every project, merged. */
  function MergedArtifacts(root: Project, projects: seq<Project>, env: Environment): seq<Artifact> {
    DirectDependencies(root, projects, ProjectArtifactIds(projects, env.idOf), env)
  }

  /** The artifacts left after the removal, the transitive resolution and the exclusions. */
  function RemainingArtifacts(root: Project, projects: seq<Project>, settings: Settings, env: Environment): seq<Artifact> {
    WithoutExcluded(Resolved(WithoutProjectArtifacts(MergedArtifacts(root, projects, env), projects), settings, env),
                    settings.classpathExcludes)
  }

  /** The entry written for one sorted library path. */
  function LibraryEntry(path: string, settings: Settings, rootDirectory: string): Item {
    if StartsWith(path, settings.repositoryVariableName) then Entry(Var, path)
    else if StartsWith(path, rootDirectory) then Entry(Lib, Replace(path, rootDirectory + "/", ""))
    else Entry(Lib, path)
  }

  function SourceEntries(roots: seq<string>): seq<Item>
    decreases |roots|
  {
    if roots == [] then [] else SourceEntries(roots[..|roots| - 1]) + [Entry(Src, roots[|roots| - 1])]
  }

  function LibraryEntries(paths: seq<string>, settings: Settings, rootDirectory: string): seq<Item>
    decreases |paths|
  {
    if paths == [] then []
    else LibraryEntries(paths[..|paths| - 1], settings, rootDirectory)
         + [LibraryEntry(paths[|paths| - 1], settings, rootDirectory)]
  }

  /** The output directory, relative to the root project's directory. */
  function OutputPath(root: Project, rootDirectory: string): string {
    Relativize(Normalize(root.outputDirectory), rootDirectory)
  }

  /** The merged markup, written only when it is not blank. */
  function Trailer(merge: Option<string>): seq<Item> {
    if IsNotBlank(merge) then [Markup(merge.value)] else []
  }

  /** The children of the `classpath` element, from its parts. */
  function Document(roots: seq<string>, paths: seq<string>, settings: Settings, rootDirectory: string,
                    outputPath: string): seq<Item> {
    SourceEntries(roots) + LibraryEntries(paths, settings, rootDirectory)
    + [Entry(Con, JreContainer), Entry(Output, outputPath)] + Trailer(settings.merge)
  }

  /** The sorted library paths of the document. */
  function SortedPaths(root: Project, projects: seq<Project>, settings: Settings, env: Environment): seq<string> {
    Sort(LibraryPaths(RemainingArtifacts(root, projects, settings, env), settings, env))
  }

  /** The merged source roots of the document. */
  function SourceRootsOf(root: Project, projects: seq<Project>, settings: Settings, env: Environment): seq<string> {
    AllSourceRoots(root, projects, Normalize(root.basedir), settings.includeResourcesDirectory, env.isDirectory)
  }

  /** The `classpath` element's children for the root project and the projects of the reactor. */
  function ClasspathOf(root: Project, projects: seq<Project>, settings: Settings, env: Environment): seq<Item> {
    Document(SourceRootsOf(root, projects, settings, env), SortedPaths(root, projects, settings, env),
             settings, Normalize(root.basedir), OutputPath(root, Normalize(root.basedir)))
  }

  // ---------------------------------------------------------------- what the document holds

  /** The section an item belongs to: sources, libraries, container, output, markup. */
  function Rank(item: Item): nat {
    match item
    case Markup(_) => 4
    case Entry(kind, _) =>
      match kind
      case Src => 0
      case Var => 1
      case Lib => 1
      case Con => 2
      case Output => 3
  }

  lemma {:induction false} SourceEntriesAt(roots: seq<string>)
    ensures |SourceEntries(roots)| == |roots|
    ensures forall k :: 0 <= k < |roots| ==> SourceEntries(roots)[k] == Entry(Src, roots[k])
    decreases |roots|
  {
    if roots != [] {
      SourceEntriesAt(roots[..|roots| - 1]);
    }
  }

  lemma {:induction false} LibraryEntriesAt(paths: seq<string>, settings: Settings, rootDirectory: string)
    ensures |LibraryEntries(paths, settings, rootDirectory)| == |paths|
    ensures forall k :: 0 <= k < |paths| ==>
      LibraryEntries(paths, settings, rootDirectory)[k] == LibraryEntry(paths[k], settings, rootDirectory)
    decreases |paths|
  {
    if paths != [] {
      LibraryEntriesAt(paths[..|paths| - 1], settings, rootDirectory);
    }
  }

  /** Where each item of the document comes from, by position. */
  lemma DocumentAt(roots: seq<string>, paths: seq<string>, settings: Settings, rootDirectory: string,
                   outputPath: string, k: int)
    requires 0 <= k < |Document(roots, paths, settings, rootDirectory, outputPath)|
    ensures var d := Document(roots, paths, settings, rootDirectory, outputPath);
      var n := |roots|;
      && |d| == n + |paths| + 2 + |Trailer(settings.merge)|
      && (k < n ==> d[k] == Entry(Src, roots[k]))
      && (n <= k < n + |paths| ==> d[k] == LibraryEntry(paths[k - n], settings, rootDirectory))
      && (k == n + |paths| ==> d[k] == Entry(Con, JreContainer))
      && (k == n + |paths| + 1 ==> d[k] == Entry(Output, outputPath))
      && (k >= n + |paths| + 2 ==> d[k] == Markup(settings.merge.value) && IsNotBlank(settings.merge))
  {
    SourceEntriesAt(roots);
    LibraryEntriesAt(paths, settings, rootDirectory);
  }

  /**
   * A document is laid out in sections: source entries, then library and
   * variable entries, then exactly one JRE container entry, then exactly one
   * output entry, then the merged markup, which closes the document exactly
   * when it is not blank.
   */
  lemma DocumentLayout(roots: seq<string>, paths: seq<string>, settings: Settings, rootDirectory: string,
                       outputPath: string)
    ensures var d := Document(roots, paths, settings, rootDirectory, outputPath);
      && (forall i, j :: 0 <= i < j < |d| ==> Rank(d[i]) <= Rank(d[j]))
      && (forall i, j :: 0 <= i < j < |d| && Rank(d[i]) >= 2 ==> Rank(d[i]) < Rank(d[j]))
      && Entry(Con, JreContainer) in d
      && Entry(Output, outputPath) in d
      && (forall item :: item in d && IsKind(item, Con) ==> item.path == JreContainer)
      && (forall item :: item in d && IsKind(item, Output) ==> item.path == outputPath)
      && (d[|d| - 1].Markup? <==> IsNotBlank(settings.merge))
      && (forall item :: item in d && item.Markup? ==> settings.merge == Some(item.text))
  {
    DocumentOrder(roots, paths, settings, rootDirectory, outputPath);
    DocumentClosing(roots, paths, settings, rootDirectory, outputPath);
  }

  lemma DocumentOrder(roots: seq<string>, paths: seq<string>, settings: Settings, rootDirectory: string,
                      outputPath: string)
    ensures var d := Document(roots, paths, settings, rootDirectory, outputPath);
      && (forall i, j :: 0 <= i < j < |d| ==> Rank(d[i]) <= Rank(d[j]))
      && (forall i, j :: 0 <= i < j < |d| && Rank(d[i]) >= 2 ==> Rank(d[i]) < Rank(d[j]))
  {
    var d := Document(roots, paths, settings, rootDirectory, outputPath);
    forall k | 0 <= k < |d| ensures Rank(d[k]) == SectionRank(k, |roots|, |paths|) {
      DocumentRankAt(roots, paths, settings, rootDirectory, outputPath, k);
    }
  }

  lemma DocumentClosing(roots: seq<string>, paths: seq<string>, settings: Settings, rootDirectory: string,
                        outputPath: string)
    ensures var d := Document(roots, paths, settings, rootDirectory, outputPath);
      && Entry(Con, JreContainer) in d
      && Entry(Output, outputPath) in d
      && (forall item :: item in d && IsKind(item, Con) ==> item.path == JreContainer)
      && (forall item :: item in d && IsKind(item, Output) ==> item.path == outputPath)
      && (d[|d| - 1].Markup? <==> IsNotBlank(settings.merge))
      && (forall item :: item in d && item.Markup? ==> settings.merge == Some(item.text))
  {
    var d := Document(roots, paths, settings, rootDirectory, outputPath);
    var n := |roots|;
    var m := |paths|;
    DocumentAt(roots, paths, settings, rootDirectory, outputPath, 0);
    DocumentAt(roots, paths, settings, rootDirectory, outputPath, n + m);
    DocumentAt(roots, paths, settings, rootDirectory, outputPath, n + m + 1);
    DocumentAt(roots, paths, settings, rootDirectory, outputPath, |d| - 1);
    forall item | item in d ensures
      && (IsKind(item, Con) ==> item.path == JreContainer)
      && (IsKind(item, Output) ==> item.path == outputPath)
      && (item.Markup? ==> settings.merge == Some(item.text))
    {
      var k :| 0 <= k < |d| && d[k] == item;
      DocumentAt(roots, paths, settings, rootDirectory, outputPath, k);
    }
  }

  /** The rank of position `k` in a document with `n` source and `m` library entries. */
  function SectionRank(k: int, n: int, m: int): int {
    if k < n then 0 else if k < n + m then 1 else k - n - m + 2
  }

  lemma DocumentRankAt(roots: seq<string>, paths: seq<string>, settings: Settings, rootDirectory: string,
                       outputPath: string, k: int)
    requires 0 <= k < |Document(roots, paths, settings, rootDirectory, outputPath)|
    ensures Rank(Document(roots, paths, settings, rootDirectory, outputPath)[k]) == SectionRank(k, |roots|, |paths|)
  {
    DocumentAt(roots, paths, settings, rootDirectory, outputPath, k);
  }

  /** The `.classpath` document has the section layout of `DocumentLayout`. */
  lemma ClasspathLayout(root: Project, projects: seq<Project>, settings: Settings, env: Environment)
    ensures var d := ClasspathOf(root, projects, settings, env);
      && (forall i, j :: 0 <= i < j < |d| ==> Rank(d[i]) <= Rank(d[j]))
      && (forall i, j :: 0 <= i < j < |d| && Rank(d[i]) >= 2 ==> Rank(d[i]) < Rank(d[j]))
      && Entry(Con, JreContainer) in d
      && Entry(Output, OutputPath(root, Normalize(root.basedir))) in d
      && (d[|d| - 1].Markup? <==> IsNotBlank(settings.merge))
  {
    var roots, paths := SourceRootsOf(root, projects, settings, env), SortedPaths(root, projects, settings, env);
    var rootDirectory := Normalize(root.basedir);
    assert ClasspathOf(root, projects, settings, env)
      == Document(roots, paths, settings, rootDirectory, OutputPath(root, rootDirectory));
    DocumentLayout(roots, paths, settings, rootDirectory, OutputPath(root, rootDirectory));
  }

  /** The source entries of a document are its roots, in their order. */
  lemma DocumentSources(roots: seq<string>, paths: seq<string>, settings: Settings, rootDirectory: string,
                        outputPath: string)
    ensures var d := Document(roots, paths, settings, rootDirectory, outputPath);
      && (forall p :: Entry(Src, p) in d <==> p in roots)
      && (StrictlySorted(roots) ==>
            forall i, j :: 0 <= i < j < |d| && IsKind(d[i], Src) && IsKind(d[j], Src) ==> Below(d[i].path, d[j].path))
  {
    var d := Document(roots, paths, settings, rootDirectory, outputPath);
    var n := |roots|;
    DocumentAt(roots, paths, settings, rootDirectory, outputPath, 0);
    forall k | 0 <= k < |d| && IsKind(d[k], Src) ensures k < n && d[k].path == roots[k] {
      DocumentAt(roots, paths, settings, rootDirectory, outputPath, k);
    }
    forall p | Entry(Src, p) in d ensures p in roots {
      var k :| 0 <= k < |d| && d[k] == Entry(Src, p);
      assert IsKind(d[k], Src);
    }
    forall p | p in roots ensures Entry(Src, p) in d {
      var k :| 0 <= k < n && roots[k] == p;
      DocumentAt(roots, paths, settings, rootDirectory, outputPath, k);
    }
  }

  /**
   * The source entries of the `.classpath` document are, in strictly
   * ascending order, the source roots of the root project and of every
   * project, each once.
   */
  lemma SourceSection(root: Project, projects: seq<Project>, settings: Settings, env: Environment)
    ensures var d := ClasspathOf(root, projects, settings, env);
      && (forall p :: Entry(Src, p) in d <==>
            SourceRootOf(p, root, projects, Normalize(root.basedir), settings.includeResourcesDirectory, env.isDirectory))
      && (forall i, j :: 0 <= i < j < |d| && IsKind(d[i], Src) && IsKind(d[j], Src) ==> Below(d[i].path, d[j].path))
  {
    AllSourceRootsCorrect(root, projects, Normalize(root.basedir), settings.includeResourcesDirectory, env.isDirectory);
    DocumentSources(SourceRootsOf(root, projects, settings, env), SortedPaths(root, projects, settings, env),
                    settings, Normalize(root.basedir), OutputPath(root, Normalize(root.basedir)));
  }

  /** Each library or variable entry of a document is the entry of one of its paths. */
  lemma DocumentLibrariesFromPaths(roots: seq<string>, paths: seq<string>, settings: Settings, rootDirectory: string,
                                   outputPath: string)
    ensures forall item :: (item in Document(roots, paths, settings, rootDirectory, outputPath)
      && (IsKind(item, Var) || IsKind(item, Lib))) ==>
        exists p :: p in paths && item == LibraryEntry(p, settings, rootDirectory)
  {
    var d := Document(roots, paths, settings, rootDirectory, outputPath);
    forall item | item in d && (IsKind(item, Var) || IsKind(item, Lib))
      ensures exists p :: p in paths && item == LibraryEntry(p, settings, rootDirectory)
    {
      var k :| 0 <= k < |d| && d[k] == item;
      DocumentAt(roots, paths, settings, rootDirectory, outputPath, k);
      assert paths[k - |roots|] in paths;
    }
  }

  /** Each path of a document has its library or variable entry. */
  lemma DocumentPathsHaveEntries(roots: seq<string>, paths: seq<string>, settings: Settings, rootDirectory: string,
                                 outputPath: string)
    ensures forall p :: p in paths ==> LibraryEntry(p, settings, rootDirectory) in Document(roots, paths, settings, rootDirectory, outputPath)
  {
    DocumentAt(roots, paths, settings, rootDirectory, outputPath, 0);
    forall p | p in paths ensures LibraryEntry(p, settings, rootDirectory) in Document(roots, paths, settings, rootDirectory, outputPath) {
      var i :| 0 <= i < |paths| && paths[i] == p;
      DocumentAt(roots, paths, settings, rootDirectory, outputPath, |roots| + i);
    }
  }

  /** The library section of a document sits right after its source entries. */
  lemma DocumentLibrarySegment(roots: seq<string>, paths: seq<string>, settings: Settings, rootDirectory: string,
                               outputPath: string)
    ensures var d := Document(roots, paths, settings, rootDirectory, outputPath);
      |roots| + |paths| <= |d| && d[|roots|..|roots| + |paths|] == LibraryEntries(paths, settings, rootDirectory)
  {
    var d := Document(roots, paths, settings, rootDirectory, outputPath);
    var n := |roots|;
    DocumentAt(roots, paths, settings, rootDirectory, outputPath, 0);
    LibraryEntriesAt(paths, settings, rootDirectory);
    forall k | 0 <= k < |paths|
      ensures d[n..n + |paths|][k] == LibraryEntries(paths, settings, rootDirectory)[k]
    {
      DocumentAt(roots, paths, settings, rootDirectory, outputPath, n + k);
    }
  }

  /** The library paths of `remaining`, sorted, hold exactly the paths of its located artifacts of an allowed type. */
  lemma SortedLibraryPathsCorrect(remaining: seq<Artifact>, settings: Settings, env: Environment)
    ensures Sorted(Sort(LibraryPaths(remaining, settings, env)))
    ensures forall p :: p in Sort(LibraryPaths(remaining, settings, env)) ==>
      exists a :: a in remaining && OnClasspath(a, settings, env) && p == LibraryPath(LocatedFile(a, env).value, settings)
    ensures forall a :: a in remaining && OnClasspath(a, settings, env) ==>
      LibraryPath(LocatedFile(a, env).value, settings) in Sort(LibraryPaths(remaining, settings, env))
    ensures forall sorted :: Sorted(sorted) && multiset(sorted) == multiset(LibraryPaths(remaining, settings, env)) ==>
      sorted == Sort(LibraryPaths(remaining, settings, env))
  {
    var unsorted := LibraryPaths(remaining, settings, env);
    var paths := Sort(unsorted);
    LibraryPathsCorrect(remaining, settings, env);
    SortCorrect(unsorted);
    forall p | p in paths
      ensures exists a :: a in remaining && OnClasspath(a, settings, env) && p == LibraryPath(LocatedFile(a, env).value, settings)
    {
      assert p in multiset(unsorted);
      var i :| 0 <= i < |unsorted| && unsorted[i] == p;
    }
    forall a | a in remaining && OnClasspath(a, settings, env)
      ensures LibraryPath(LocatedFile(a, env).value, settings) in paths
    {
      assert LibraryPath(LocatedFile(a, env).value, settings) in multiset(unsorted);
    }
    forall sorted | Sorted(sorted) && multiset(sorted) == multiset(unsorted) ensures sorted == paths {
      SortedUnique(sorted, paths);
    }
  }

  /**
   * Every `var` or `lib` entry of the `.classpath` document is the entry of a
   * remaining artifact of an allowed type that has a file.
   */
  lemma LibraryEntriesHaveArtifacts(root: Project, projects: seq<Project>, settings: Settings, env: Environment)
    ensures forall item :: (item in ClasspathOf(root, projects, settings, env)
      && (IsKind(item, Var) || IsKind(item, Lib))) ==>
        exists a :: a in RemainingArtifacts(root, projects, settings, env) && OnClasspath(a, settings, env)
          && item == LibraryEntry(LibraryPath(LocatedFile(a, env).value, settings), settings, Normalize(root.basedir))
  {
    var rootDirectory := Normalize(root.basedir);
    LibraryEntriesFromArtifacts(SourceRootsOf(root, projects, settings, env), RemainingArtifacts(root, projects, settings, env),
                                settings, env, rootDirectory, OutputPath(root, rootDirectory));
  }

  /** Every remaining artifact of an allowed type that has a file has its entry in the `.classpath` document. */
  lemma RemainingArtifactsHaveEntries(root: Project, projects: seq<Project>, settings: Settings, env: Environment)
    ensures forall a :: a in RemainingArtifacts(root, projects, settings, env) && OnClasspath(a, settings, env) ==>
      LibraryEntry(LibraryPath(LocatedFile(a, env).value, settings), settings, Normalize(root.basedir))
        in ClasspathOf(root, projects, settings, env)
  {
    var rootDirectory := Normalize(root.basedir);
    ArtifactsHaveLibraryEntries(SourceRootsOf(root, projects, settings, env), RemainingArtifacts(root, projects, settings, env),
                                settings, env, rootDirectory, OutputPath(root, rootDirectory));
  }

  /**
   * The library section of the `.classpath` document, right after the source
   * entries, is the entries of the artifact paths in ascending order: the one
   * order any sort of those paths gives.
   */
  lemma LibrarySectionOrder(root: Project, projects: seq<Project>, settings: Settings, env: Environment)
    ensures var d := ClasspathOf(root, projects, settings, env);
      var n := |SourceRootsOf(root, projects, settings, env)|;
      forall sorted :: (Sorted(sorted)
        && multiset(sorted) == multiset(LibraryPaths(RemainingArtifacts(root, projects, settings, env), settings, env))) ==>
          n + |sorted| <= |d| && d[n..n + |sorted|] == LibraryEntries(sorted, settings, Normalize(root.basedir))
  {
    var rootDirectory := Normalize(root.basedir);
    LibraryEntriesSorted(SourceRootsOf(root, projects, settings, env),
                         LibraryPaths(RemainingArtifacts(root, projects, settings, env), settings, env),
                         settings, rootDirectory, OutputPath(root, rootDirectory));
  }

  /** Each `var` or `lib` entry comes from a remaining located artifact of an allowed type. */
  lemma LibraryEntriesFromArtifacts(roots: seq<string>, remaining: seq<Artifact>, settings: Settings, env: Environment,
                                    rootDirectory: string, outputPath: string)
    ensures forall item :: (item in Document(roots, Sort(LibraryPaths(remaining, settings, env)), settings, rootDirectory, outputPath)
      && (IsKind(item, Var) || IsKind(item, Lib))) ==>
        exists a :: a in remaining && OnClasspath(a, settings, env)
          && item == LibraryEntry(LibraryPath(LocatedFile(a, env).value, settings), settings, rootDirectory)
  {
    var paths := Sort(LibraryPaths(remaining, settings, env));
    var d := Document(roots, paths, settings, rootDirectory, outputPath);
    SortedLibraryPathsCorrect(remaining, settings, env);
    DocumentLibrariesFromPaths(roots, paths, settings, rootDirectory, outputPath);
    forall item | item in d && (IsKind(item, Var) || IsKind(item, Lib))
      ensures exists a :: (a in remaining && OnClasspath(a, settings, env)
        && item == LibraryEntry(LibraryPath(LocatedFile(a, env).value, settings), settings, rootDirectory))
    {
      var p :| p in paths && item == LibraryEntry(p, settings, rootDirectory);
      var a :| a in remaining && OnClasspath(a, settings, env) && p == LibraryPath(LocatedFile(a, env).value, settings);
    }
  }

  /** Each remaining located artifact of an allowed type has its entry. */
  lemma ArtifactsHaveLibraryEntries(roots: seq<string>, remaining: seq<Artifact>, settings: Settings, env: Environment,
                                    rootDirectory: string, outputPath: string)
    ensures forall a :: a in remaining && OnClasspath(a, settings, env) ==>
      LibraryEntry(LibraryPath(LocatedFile(a, env).value, settings), settings, rootDirectory)
        in Document(roots, Sort(LibraryPaths(remaining, settings, env)), settings, rootDirectory, outputPath)
  {
    var paths := Sort(LibraryPaths(remaining, settings, env));
    SortedLibraryPathsCorrect(remaining, settings, env);
    DocumentPathsHaveEntries(roots, paths, settings, rootDirectory, outputPath);
  }

  /** The library section is the entries of the paths in the one ascending order. */
  lemma LibraryEntriesSorted(roots: seq<string>, unsorted: seq<string>, settings: Settings, rootDirectory: string,
                             outputPath: string)
    ensures var d := Document(roots, Sort(unsorted), settings, rootDirectory, outputPath);
      forall sorted :: Sorted(sorted) && multiset(sorted) == multiset(unsorted) ==>
        |roots| + |sorted| <= |d| && d[|roots|..|roots| + |sorted|] == LibraryEntries(sorted, settings, rootDirectory)
  {
    forall sorted | Sorted(sorted) && multiset(sorted) == multiset(unsorted)
      ensures var d := Document(roots, Sort(unsorted), settings, rootDirectory, outputPath);
        |roots| + |sorted| <= |d| && d[|roots|..|roots| + |sorted|] == LibraryEntries(sorted, settings, rootDirectory)
    {
      LibraryEntriesOfSorted(roots, unsorted, sorted, settings, rootDirectory, outputPath);
    }
  }

  lemma LibraryEntriesOfSorted(roots: seq<string>, unsorted: seq<string>, sorted: seq<string>, settings: Settings,
                               rootDirectory: string, outputPath: string)
    requires Sorted(sorted) && multiset(sorted) == multiset(unsorted)
    ensures var d := Document(roots, Sort(unsorted), settings, rootDirectory, outputPath);
      |roots| + |sorted| <= |d| && d[|roots|..|roots| + |sorted|] == LibraryEntries(sorted, settings, rootDirectory)
  {
    SortCorrect(unsorted);
    SortedUnique(sorted, Sort(unsorted));
    DocumentLibrarySegment(roots, sorted, settings, rootDirectory, outputPath);
  }

  /** A file under the local repository is written as a `var` entry. */
  lemma RepositoryFileIsVariable(file: string, settings: Settings, rootDirectory: string)
    requires |Normalize(settings.localRepositoryBasedir)| > 0
    requires StartsWith(Normalize(file), Normalize(settings.localRepositoryBasedir))
    ensures LibraryEntry(LibraryPath(file, settings), settings, rootDirectory) == Entry(Var, LibraryPath(file, settings))
  {
    RepositoryFileStartsWithVariable(file, settings);
  }

  /**
   * What survives to the library section: no excluded artifact; without
   * transitive resolution, only direct dependencies that are not the
   * projects' own artifacts, and every direct dependency of the root or of
   * any project that is neither a project artifact nor excluded; with it,
   * exactly the artifacts the transitive resolution returned that are not
   * excluded.
   */
  lemma RemainingArtifactsCorrect(root: Project, projects: seq<Project>, settings: Settings, env: Environment)
    ensures var remaining := RemainingArtifacts(root, projects, settings, env);
      && (settings.classpathExcludes.Some? ==>
            forall a :: a in remaining ==> !Excluded(a, settings.classpathExcludes.value))
      && (!settings.resolveTransitiveDependencies ==>
            forall a :: a in remaining ==>
              (!IsProjectArtifact(a, projects)
               && (a in root.dependencies || FromSomeProject(a, projects, ProjectArtifactIds(projects, env.idOf), env))))
      && (!settings.resolveTransitiveDependencies ==>
            forall d :: d in root.dependencies && !IsProjectArtifact(d, projects)
              && (settings.classpathExcludes.None? || !Excluded(d, settings.classpathExcludes.value))
              ==> Contains(remaining, d))
      && (settings.resolveTransitiveDependencies ==>
            forall a :: a in remaining ==>
              a in env.resolveTransitively(WithoutProjectArtifacts(MergedArtifacts(root, projects, env), projects),
                                           TransitiveFilters(env)))
    ensures !settings.resolveTransitiveDependencies ==>
      forall i, j :: 0 <= i < |projects| && 0 <= j < |projects[i].dependencies|
        && !IsProjectArtifact(projects[i].dependencies[j], projects)
        && (settings.classpathExcludes.None? || !Excluded(projects[i].dependencies[j], settings.classpathExcludes.value))
        ==> Contains(RemainingArtifacts(root, projects, settings, env), projects[i].dependencies[j])
    ensures settings.resolveTransitiveDependencies ==>
      forall a :: a in env.resolveTransitively(WithoutProjectArtifacts(MergedArtifacts(root, projects, env), projects),
                                               TransitiveFilters(env))
        && (settings.classpathExcludes.None? || !Excluded(a, settings.classpathExcludes.value))
        ==> Contains(RemainingArtifacts(root, projects, settings, env), a)
  {
    var ids := ProjectArtifactIds(projects, env.idOf);
    var merged := MergedArtifacts(root, projects, env);
    var kept := WithoutProjectArtifacts(merged, projects);
    var resolved := Resolved(kept, settings, env);
    var remaining := RemainingArtifacts(root, projects, settings, env);
    DirectDependenciesCorrect(root, projects, ids, env);
    WithoutProjectArtifactsCorrect(merged, projects);
    WithoutExcludedCorrect(resolved, settings.classpathExcludes);
    if settings.resolveTransitiveDependencies {
      AddArtifactsCorrect([], env.resolveTransitively(kept, TransitiveFilters(env)));
      ResolvedSurvive(root, projects, settings, env);
    } else {
      forall d | d in root.dependencies && !IsProjectArtifact(d, projects)
        && (settings.classpathExcludes.None? || !Excluded(d, settings.classpathExcludes.value))
        ensures Contains(remaining, d)
      {
        DirectDependencySurvives(root, projects, settings, env, d);
      }
      ProjectDependenciesSurvive(root, projects, settings, env);
    }
  }

  /**
   * Without transitive resolution, an artifact of the merged set that is
   * neither a project artifact nor excluded reaches the library section.
   */
  lemma DirectDependencySurvives(root: Project, projects: seq<Project>, settings: Settings, env: Environment, d: Artifact)
    requires !settings.resolveTransitiveDependencies
    requires Contains(MergedArtifacts(root, projects, env), d)
    requires !IsProjectArtifact(d, projects)
    requires settings.classpathExcludes.None? || !Excluded(d, settings.classpathExcludes.value)
    ensures Contains(RemainingArtifacts(root, projects, settings, env), d)
  {
    var merged := MergedArtifacts(root, projects, env);
    var kept := WithoutProjectArtifacts(merged, projects);
    WithoutProjectArtifactsCorrect(merged, projects);
    WithoutExcludedCorrect(kept, settings.classpathExcludes);
    var b :| b in merged && CoordinatesOf(b) == CoordinatesOf(d);
    assert !IsProjectArtifact(b, projects);
    assert settings.classpathExcludes.Some? ==> !Excluded(b, settings.classpathExcludes.value);
    assert b in kept;
    assert b in RemainingArtifacts(root, projects, settings, env);
  }

  /**
   * Without transitive resolution, every direct dependency of every project
   * that is neither a project artifact nor excluded reaches the library
   * section.
   */
  lemma ProjectDependenciesSurvive(root: Project, projects: seq<Project>, settings: Settings, env: Environment)
    requires !settings.resolveTransitiveDependencies
    ensures forall i, j ::
      (0 <= i < |projects| && 0 <= j < |projects[i].dependencies|
       && !IsProjectArtifact(projects[i].dependencies[j], projects)
       && (settings.classpathExcludes.None? || !Excluded(projects[i].dependencies[j], settings.classpathExcludes.value)))
      ==> Contains(RemainingArtifacts(root, projects, settings, env), projects[i].dependencies[j])
  {
    DirectDependenciesCorrect(root, projects, ProjectArtifactIds(projects, env.idOf), env);
    forall i, j | 0 <= i < |projects| && 0 <= j < |projects[i].dependencies|
      && !IsProjectArtifact(projects[i].dependencies[j], projects)
      && (settings.classpathExcludes.None? || !Excluded(projects[i].dependencies[j], settings.classpathExcludes.value))
      ensures Contains(RemainingArtifacts(root, projects, settings, env), projects[i].dependencies[j])
    {
      DirectDependencySurvives(root, projects, settings, env, projects[i].dependencies[j]);
    }
  }

  /**
   * With transitive resolution, every artifact the resolution returned that
   * is not excluded reaches the library section.
   */
  lemma ResolvedSurvive(root: Project, projects: seq<Project>, settings: Settings, env: Environment)
    requires settings.resolveTransitiveDependencies
    ensures forall a ::
      (a in env.resolveTransitively(WithoutProjectArtifacts(MergedArtifacts(root, projects, env), projects),
                                    TransitiveFilters(env))
       && (settings.classpathExcludes.None? || !Excluded(a, settings.classpathExcludes.value)))
      ==> Contains(RemainingArtifacts(root, projects, settings, env), a)
  {
    var kept := WithoutProjectArtifacts(MergedArtifacts(root, projects, env), projects);
    var found := env.resolveTransitively(kept, TransitiveFilters(env));
    var resolved := Resolved(kept, settings, env);
    AddArtifactsCorrect([], found);
    WithoutExcludedCorrect(resolved, settings.classpathExcludes);
    forall a | a in found && (settings.classpathExcludes.None? || !Excluded(a, settings.classpathExcludes.value))
      ensures Contains(RemainingArtifacts(root, projects, settings, env), a)
    {
      var b :| b in resolved && CoordinatesOf(b) == CoordinatesOf(a);
      assert settings.classpathExcludes.Some? ==> !Excluded(b, settings.classpathExcludes.value);
      assert b in RemainingArtifacts(root, projects, settings, env);
    }
  }

  // ---------------------------------------------------------------- write

  /** The loop of `write` over the projects: their source roots and their direct dependencies. */
  method CollectProjects(root: Project, projects: seq<Project>, rootDirectory: string, settings: Settings,
                         env: Environment, projectArtifactIds: set<string>)
    returns (sourceRoots: seq<string>, allArtifacts: seq<Artifact>)
    ensures sourceRoots == AllSourceRoots(root, projects, rootDirectory, settings.includeResourcesDirectory, env.isDirectory)
    ensures allArtifacts == DirectDependencies(root, projects, projectArtifactIds, env)
  {
    sourceRoots := CollectSourceRoots(root, rootDirectory, settings.includeResourcesDirectory, env.isDirectory);
    allArtifacts := AddArtifacts([], root.dependencies);
    ghost var rootArtifacts := allArtifacts;
    for i := 0 to |projects|
      invariant sourceRoots == AllSourceRoots(root, projects[..i], rootDirectory, settings.includeResourcesDirectory, env.isDirectory)
      invariant allArtifacts == MergeProjects(rootArtifacts, projects[..i], projectArtifactIds, env)
    {
      assert projects[..i + 1][..i] == projects[..i];
      var project := projects[i];
      var roots := CollectSourceRoots(project, rootDirectory, settings.includeResourcesDirectory, env.isDirectory);
      sourceRoots := TreeSetAddAll(sourceRoots, roots);
      allArtifacts := AddProjectDependencies(allArtifacts, project, projectArtifactIds, env);
    }
    assert projects[..|projects|] == projects;
  }

  /**
   * The transitive resolution under an `OrArtifactFilter` of the compile,
   * provided and test scopes; its artifacts replace the set's contents.
   */
  method ResolveTransitively(allArtifacts: seq<Artifact>, env: Environment) returns (resolved: seq<Artifact>)
    ensures resolved == AddArtifacts([], env.resolveTransitively(allArtifacts, TransitiveFilters(env)))
  {
    var filter := new OrArtifactFilter();
    filter.Add(env.scopeFilter("compile"));
    filter.Add(env.scopeFilter("provided"));
    filter.Add(env.scopeFilter("test"));
    assert filter.filters == TransitiveFilters(env);
    var result := env.resolveTransitively(allArtifacts, filter.filters);
    resolved := AddArtifacts([], result);
  }

  /** From the merged set to the sorted library paths: removal, transitive resolution, exclusion, typing. */
  method SortedLibraryPaths(merged: seq<Artifact>, projects: seq<Project>, settings: Settings, env: Environment)
    returns (allArtifactPaths: seq<string>)
    ensures allArtifactPaths ==
      Sort(LibraryPaths(WithoutExcluded(Resolved(WithoutProjectArtifacts(merged, projects), settings, env),
                                        settings.classpathExcludes), settings, env))
  {
    var allArtifacts := RemoveProjectArtifacts(merged, projects);
    if settings.resolveTransitiveDependencies {
      allArtifacts := ResolveTransitively(allArtifacts, env);
    }
    allArtifacts := RemoveExcluded(allArtifacts, settings.classpathExcludes);
    allArtifactPaths := ArtifactPaths(allArtifacts, settings, env);
    allArtifactPaths := Sort(allArtifactPaths);
  }

  /** The loop writing the `src` entries. */
  method WriteSourceEntries(writer: ClasspathXmlWriter, sourceRoots: seq<string>)
    modifies writer
    ensures writer.items == old(writer.items) + SourceEntries(sourceRoots)
  {
    ghost var start := writer.items;
    for i := 0 to |sourceRoots|
      invariant writer.items == start + SourceEntries(sourceRoots[..i])
    {
      assert sourceRoots[..i + 1][..i] == sourceRoots[..i];
      writer.WriteClasspathEntry(Src, sourceRoots[i]);
    }
    assert sourceRoots[..|sourceRoots|] == sourceRoots;
  }

  /** The loop writing a `var` or `lib` entry per sorted path. */
  method WriteLibraryEntries(writer: ClasspathXmlWriter, allArtifactPaths: seq<string>, settings: Settings,
                             rootDirectory: string)
    modifies writer
    ensures writer.items == old(writer.items) + LibraryEntries(allArtifactPaths, settings, rootDirectory)
  {
    ghost var start := writer.items;
    for i := 0 to |allArtifactPaths|
      invariant writer.items == start + LibraryEntries(allArtifactPaths[..i], settings, rootDirectory)
    {
      assert allArtifactPaths[..i + 1][..i] == allArtifactPaths[..i];
      var path := allArtifactPaths[i];
      if StartsWith(path, settings.repositoryVariableName) {
        writer.WriteClasspathEntry(Var, path);
      } else {
        if StartsWith(path, rootDirectory) {
          path := Replace(path, rootDirectory + "/", "");
        }
        writer.WriteClasspathEntry(Lib, path);
      }
    }
    assert allArtifactPaths[..|allArtifactPaths|] == allArtifactPaths;
  }

  /** The container, the output directory and the merged markup that close the document. */
  method WriteTrailer(writer: ClasspathXmlWriter, root: Project, rootDirectory: string, merge: Option<string>)
    modifies writer
    ensures writer.items == old(writer.items)
      + [Entry(Con, JreContainer), Entry(Output, OutputPath(root, rootDirectory))] + Trailer(merge)
  {
    writer.WriteClasspathEntry(Con, JreContainer);
    var outputPath := Replace(Normalize(root.outputDirectory), rootDirectory, "");
    if StartsWith(outputPath, "/") {
      outputPath := outputPath[1..];
    }
    writer.WriteClasspathEntry(Output, outputPath);
    if IsNotBlank(merge) {
      writer.WriteMarkup(merge.value);
    }
  }

  /** `write(projects, repositoryVariableName, ..., merge, classpathExcludes, includeResourcesDirectory)`. */
  method Write(root: Project, projects: seq<Project>, settings: Settings, env: Environment)
    returns (document: seq<Item>)
    ensures document == ClasspathOf(root, projects, settings, env)
  {
    var rootDirectory := Normalize(root.basedir);
    var writer := new ClasspathXmlWriter();
    var projectArtifactIds := CollectProjectArtifactIds(projects, env.idOf);
    var sourceRoots, allArtifacts := CollectProjects(root, projects, rootDirectory, settings, env, projectArtifactIds);
    WriteSourceEntries(writer, sourceRoots);
    var allArtifactPaths := SortedLibraryPaths(allArtifacts, projects, settings, env);
    WriteLibraryEntries(writer, allArtifactPaths, settings, rootDirectory);
    WriteTrailer(writer, root, rootDirectory, settings.merge);
    document := writer.items;
    assert [] + SourceEntries(sourceRoots) == SourceEntries(sourceRoots);
  }
}
