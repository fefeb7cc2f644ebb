/**
 * The Maven values the generator reads, and the collaborators it calls
 * (file system, artifact resolver, transitive resolver), as plain data and
 * functions supplied by the caller.
 */
module Maven {
  import opened Wrappers

  /** An artifact; `file` is its location once resolved, `None` before. */
  datatype Artifact = Artifact(
    groupId: string,
    artifactId: string,
    version: string,
    artifactType: string,
    classifier: Option<string>,
    scope: Option<string>,
    file: Option<string>)

  /** What `DefaultArtifact.equals` compares: the file and the scope are not part of it. */
  datatype Coordinates = Coordinates(
    groupId: string,
    artifactId: string,
    version: string,
    artifactType: string,
    classifier: Option<string>)

  function CoordinatesOf(a: Artifact): Coordinates {
    Coordinates(a.groupId, a.artifactId, a.version, a.artifactType, a.classifier)
  }

  /**
   * A loaded project: its identity, its configured source and resource
   * directories (absolute paths, as Maven reports them), its direct
   * dependencies (`createArtifacts`), its own build artifact and its output
   * directory.
   */
  datatype Project = Project(
    groupId: string,
    artifactId: string,
    version: string,
    packaging: string,
    basedir: string,
    compileSourceRoots: seq<string>,
    testCompileSourceRoots: seq<string>,
    resources: seq<string>,
    testResources: seq<string>,
    dependencies: seq<Artifact>,
    artifact: Option<Artifact>,
    outputDirectory: string)

  /** An `ArtifactFilter`: decides whether an artifact is included. */
  type ArtifactFilter = Artifact -> bool

  /** The configuration `ClasspathWriter.write` receives. */
  datatype Settings = Settings(
    repositoryVariableName: string,
    localRepositoryBasedir: string,
    classpathArtifactTypes: set<string>,
    resolveTransitiveDependencies: bool,
    merge: Option<string>,
    classpathExcludes: Option<set<string>>,
    includeResourcesDirectory: bool)

  /**
   * The collaborators, as functions of their inputs:
   * - `isDirectory(path)`: `new File(path).isDirectory()`;
   * - `idOf(a)`: `Artifact.getId()`;
   * - `resolve(a)`: the file an artifact has after `ArtifactResolver.resolve`;
   * - `scopeFilter(scope)`: `new ScopeArtifactFilter(scope)`;
   * - `resolveTransitively(artifacts, filters)`: the artifacts of
   *   `ArtifactResolver.resolveTransitively` under the OR of `filters`.
   */
  datatype Environment = Environment(
    isDirectory: string -> bool,
    idOf: Artifact -> string,
    resolve: Artifact -> Option<string>,
    scopeFilter: string -> ArtifactFilter,
    resolveTransitively: (seq<Artifact>, seq<ArtifactFilter>) -> seq<Artifact>)
}
