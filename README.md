# maven-eclipse-plugin: the `.classpath` generator, modelled in Dafny

This project models the part of the Mobicents Maven Eclipse plugin that
writes an Eclipse `.classpath` file for a root Maven project and the projects
of its reactor, together with the small utilities it relies on.

- `ClasspathWriter.write` collects source and resource directories. It merges
  the direct dependencies of every project. It removes the projects' own
  artifacts and optionally resolves the rest transitively. It applies the
  exclusion set, keeps located artifacts of the allowed types, sorts their
  paths and writes the `classpath` element.
- `ClasspathWriter.collectSourceRoots` builds the per-project `TreeSet` of
  source roots. Resource directories nested in one another are reduced to
  the outermost.
- `PathNormalizer.normalizePath` is the path clean-up applied to every path.
- `OrArtifactFilter` is the filter handed to the transitive resolution.
- `Projects` is a shared store of project ids.
- `ProjectUtils.getProject` looks a project up in a cache, then in the
  session, then builds it.

The files:

| file | module | models |
|---|---|---|
| `wrappers.dfy` | `Wrappers` | `null` as `Option`, a thrown exception as `Result.Failure` |
| `strings.dfy` | `Strings` | `startsWith`; `StringUtils.replace` and `isNotBlank`; `String.compareTo` order; `Collections.sort` on strings; `TreeSet<String>` |
| `path_normalizer.dfy` | `PathNormalizer` | `normalizePath` |
| `maven.dfy` | `Maven` | artifacts, projects, settings, collaborators |
| `or_artifact_filter.dfy` | `Filters` | `OrArtifactFilter` |
| `projects.dfy` | `ProjectStore` | `Projects` and its static `instance` |
| `project_utils.dfy` | `ProjectUtils` | `getProject`, `getProjectFromSession`, the static `projectCache` |
| `source_roots.dfy` | `SourceRoots` | `collectSourceRoots` |
| `dependencies.dfy` | `Dependencies` | the artifact-set loops of `write` |
| `classpath_writer.dfy` | `ClasspathWriter` | `write`, `writeClasspathEntry`, the document it produces |

## How the model is built

- **Collections.** A `TreeSet<String>` is a strictly ascending `seq<string>`
  under Java's `compareTo` order. A `LinkedHashSet<Artifact>` is a
  `seq<Artifact>` in which no two artifacts are equal in the sense of
  `DefaultArtifact.equals` (groupId, artifactId, version, type, classifier).
  `Collections.sort` is the insertion sort `Strings.Sort`.
  `Strings.SortedUnique` shows that any sort gives the same list.
- **The document.** The XML writer is a `ClasspathXmlWriter` object whose
  `items` field lists the children of the `classpath` element written so far.
  `ClasspathWriter.Write` runs the loops of `write` on one such object. Its
  postcondition equates the result with `ClasspathOf`, a function of the
  inputs. The lemmas about `ClasspathOf` state what the document holds.
- **Static fields.** Each is a field of a holder object that callers share:
  `ProjectsRegistry.instance` and `ProjectCache.cache`.
- **Collaborators.** These are functions in `Maven.Environment`: the file
  system (`isDirectory`), `Artifact.getId`, the artifact resolver (`resolve`,
  `resolveTransitively`) and `ScopeArtifactFilter`. The project builder is a
  parameter of `GetProject`.
- **Loops.** Each loop of the Java code is a method with a `for` or `while`
  loop. It is proved equal to a function that recurses over the input's
  prefix, and the properties are proved about that function.

## Model

| member | source | states |
|---|---|---|
| `PathNormalizer.NormalizePath` | src/main/java/org/mobicents/maven/plugin/utils/PathNormalizer.java:49-57 | `null` gives `null`; an empty path stays empty; a non-null result is never longer, has no backslash and no `//` |
| `PathNormalizer.NormalizeMatchesReference` | src/main/java/org/mobicents/maven/plugin/utils/PathNormalizer.java:35-57 | the two chained replacements equal the single rule "every maximal run of `/` and `\` becomes one `/`" |
| `PathNormalizer.NormalizedForm` | src/main/java/org/mobicents/maven/plugin/utils/PathNormalizer.java:49-57 | a normalized path has no backslash and no `//`, and is no longer than the input |
| `PathNormalizer.NormalizeFixedPoint` | src/main/java/org/mobicents/maven/plugin/utils/PathNormalizer.java:49-57 | a path with no backslash and no `//` is returned unchanged |
| `PathNormalizer.NormalizeIdempotent` | src/main/java/org/mobicents/maven/plugin/utils/PathNormalizer.java:49-57 | normalizing twice equals normalizing once |
| `PathNormalizer.NormalizeKeepsNonSeparators` | src/main/java/org/mobicents/maven/plugin/utils/PathNormalizer.java:49-57 | the characters other than `/` and `\` are kept, in order |
| `Filters.AnyIncludesAppend` | src/main/java/org/mobicents/maven/plugin/eclipse/OrArtifactFilter.java:47-70 | after appending a filter, an artifact is included exactly when it was included before or the new filter includes it |
| `Filters.OrArtifactFilter.constructor` | src/main/java/org/mobicents/maven/plugin/eclipse/OrArtifactFilter.java:42 | a new filter starts with an empty filter list |
| `Filters.OrArtifactFilter.Include` | src/main/java/org/mobicents/maven/plugin/eclipse/OrArtifactFilter.java:47-60 | true exactly when some filter includes the artifact; the scan stops at the first filter that does; every filter is asked when none does |
| `Filters.OrArtifactFilter.Add` | src/main/java/org/mobicents/maven/plugin/eclipse/OrArtifactFilter.java:67-70 | appends the filter; the included artifacts become the old ones plus those of the new filter |
| `ProjectStore.Projects.Add` | src/main/java/org/mobicents/maven/plugin/utils/Projects.java:62-65 | appends the id; the ids present are the old ones plus this id |
| `ProjectStore.Projects.IsPresent` | src/main/java/org/mobicents/maven/plugin/utils/Projects.java:73-76 | true exactly when the id is in the store; the store is unchanged |
| `ProjectStore.Projects.Clear` | src/main/java/org/mobicents/maven/plugin/utils/Projects.java:81-85 | the store is empty and the shared instance is dropped |
| `ProjectStore.ProjectsRegistry.Instance` | src/main/java/org/mobicents/maven/plugin/utils/Projects.java:41-55 | returns the existing shared store; when there is none, creates an empty one, shares it and returns it |
| `ProjectUtils.ProjectFromSession` | src/main/java/org/mobicents/maven/plugin/utils/ProjectUtils.java:102-127 | `null` exactly when no session project has `basedir/pom.xml` equal to the POM; otherwise the last such project |
| `ProjectUtils.ProjectCache.GetProject` | src/main/java/org/mobicents/maven/plugin/utils/ProjectUtils.java:49-97 | the order is cache hit, then session project (not cached), then built project; only a built project is cached; a failed build gives `null` and caches nothing; no cache entry changes |
| `Strings.ReplaceLeading` | src/main/java/org/mobicents/maven/plugin/eclipse/ClasspathWriter.java:239-242 | `StringUtils.replace` on a text that starts with a non-empty search string gives a text that starts with the replacement |
| `Strings.ReplaceAbsent` | src/main/java/org/mobicents/maven/plugin/eclipse/ClasspathWriter.java:271-273 | `StringUtils.replace` leaves a text in which the search string does not occur unchanged |
| `Strings.AtMostTotal` | src/main/java/org/mobicents/maven/plugin/eclipse/ClasspathWriter.java:253 | `compareTo` orders any two strings |
| `Strings.AtMostAntisymmetric` | src/main/java/org/mobicents/maven/plugin/eclipse/ClasspathWriter.java:253 | two strings ordered both ways are equal |
| `Strings.AtMostTransitive` | src/main/java/org/mobicents/maven/plugin/eclipse/ClasspathWriter.java:253 | the `compareTo` order is transitive |
| `Strings.SortCorrect` | src/main/java/org/mobicents/maven/plugin/eclipse/ClasspathWriter.java:253 | `Collections.sort` returns an ascending permutation of its input |
| `Strings.SortedUnique` | src/main/java/org/mobicents/maven/plugin/eclipse/ClasspathWriter.java:253 | two ascending permutations of the same strings are equal, so the sorted paths do not depend on the sort |
| `Strings.TreeSetAddCorrect` | src/main/java/org/mobicents/maven/plugin/eclipse/ClasspathWriter.java:303-319 | `TreeSet.add` keeps the set strictly ascending and adds exactly the element |
| `Strings.TreeSetAddAllCorrect` | src/main/java/org/mobicents/maven/plugin/eclipse/ClasspathWriter.java:128-129 | `TreeSet.addAll` keeps the set strictly ascending and adds exactly the given strings |
| `SourceRoots.AddSourceRoots` | src/main/java/org/mobicents/maven/plugin/eclipse/ClasspathWriter.java:303-321 | the set stays strictly ascending; it holds the old entries and, relativized, every configured root that is a directory after normalization, and nothing else |
| `SourceRoots.CollectSources` | src/main/java/org/mobicents/maven/plugin/eclipse/ClasspathWriter.java:306-321 | the source-root loop computes `AddSourceRoots` |
| `SourceRoots.HasParent` | src/main/java/org/mobicents/maven/plugin/eclipse/ClasspathWriter.java:344-352 | true exactly when some entry is a raw string prefix of the resource path |
| `SourceRoots.WithoutChildrenCorrect` | src/main/java/org/mobicents/maven/plugin/eclipse/ClasspathWriter.java:354-361 | the removal keeps exactly the entries that do not start with the resource path, in ascending order |
| `SourceRoots.RemoveChildren` | src/main/java/org/mobicents/maven/plugin/eclipse/ClasspathWriter.java:354-361 | the removal loop computes `WithoutChildren` |
| `SourceRoots.AddResourceRootCorrect` | src/main/java/org/mobicents/maven/plugin/eclipse/ClasspathWriter.java:341-363 | when an entry is a prefix of the resource directory the set is unchanged; otherwise the set holds exactly the old entries the directory is not a prefix of, plus the directory. The set stays strictly ascending and stays prefix-free; the directory and everything covered before lie in an entry |
| `SourceRoots.AddResourceRootsCorrect` | src/main/java/org/mobicents/maven/plugin/eclipse/ClasspathWriter.java:323-366 | the resource loop keeps the set strictly ascending and keeps it prefix-free, and loses no covered path. Every resource directory that exists lies, relativized, in an entry of the result. Every entry of the result was already in the set or is a relativized resource directory that exists |
| `SourceRoots.CollectResources` | src/main/java/org/mobicents/maven/plugin/eclipse/ClasspathWriter.java:323-366 | the resource loop, with its two inner loops, computes `AddResourceRoots` |
| `SourceRoots.CollectedRootsCorrect` | src/main/java/org/mobicents/maven/plugin/eclipse/ClasspathWriter.java:299-368 | the returned set is strictly ascending; it is prefix-free when its source part is; every source root and every existing resource directory lies in an entry. Every entry is a relativized source root that exists or, when resources are included, a relativized resource directory that exists |
| `SourceRoots.CollectSourceRoots` | src/main/java/org/mobicents/maven/plugin/eclipse/ClasspathWriter.java:299-368 | the method returns `CollectedRoots` |
| `SourceRoots.ParentOfMiddleEntryThrows` | src/main/java/org/mobicents/maven/plugin/eclipse/ClasspathWriter.java:354-360 | as written, adding resource `b` to the set `a`, `b/c`, `d` ends in `ConcurrentModificationException` |
| `SourceRoots.ParentOfMiddleEntryReplaced` | src/main/java/org/mobicents/maven/plugin/eclipse/ClasspathWriter.java:353-363 | the intended loop turns the same set into `a`, `b`, `d` |
| `Dependencies.AddArtifactCorrect` | src/main/java/org/mobicents/maven/plugin/eclipse/ClasspathWriter.java:141-148 | `LinkedHashSet.add` keeps the set free of equal artifacts and holds the artifact afterwards; it adds the artifact only when no equal one was there |
| `Dependencies.AddArtifactsCorrect` | src/main/java/org/mobicents/maven/plugin/eclipse/ClasspathWriter.java:123-124 | `addAll` keeps the set free of equal artifacts; it adds only the given artifacts and holds one equal to each |
| `Dependencies.CollectProjectArtifactIds` | src/main/java/org/mobicents/maven/plugin/eclipse/ClasspathWriter.java:110-117 | the id set holds exactly the ids of the projects' artifacts |
| `Dependencies.AddDependenciesCorrect` | src/main/java/org/mobicents/maven/plugin/eclipse/ClasspathWriter.java:133-149 | one project's loop keeps the set free of equal artifacts; it adds only its dependencies (resolved unless a project's own id or groupId) and holds one equal to each |
| `Dependencies.AddProjectDependencies` | src/main/java/org/mobicents/maven/plugin/eclipse/ClasspathWriter.java:130-149 | the inner dependency loop computes `AddDependencies` |
| `Dependencies.MergeProjectsCorrect` | src/main/java/org/mobicents/maven/plugin/eclipse/ClasspathWriter.java:126-150 | the loop over the projects keeps the set free of equal artifacts; it adds only the projects' dependencies and holds one equal to each |
| `Dependencies.DirectDependenciesCorrect` | src/main/java/org/mobicents/maven/plugin/eclipse/ClasspathWriter.java:123-150 | the merged set has no two equal artifacts; it holds one equal to each direct dependency of the root and of every project, and nothing else |
| `Dependencies.WithoutArtifactOfCorrect` | src/main/java/org/mobicents/maven/plugin/eclipse/ClasspathWriter.java:163-175 | exactly the artifacts whose groupId and artifactId differ from the project artifact's are kept |
| `Dependencies.WithoutProjectArtifactsCorrect` | src/main/java/org/mobicents/maven/plugin/eclipse/ClasspathWriter.java:159-177 | exactly the artifacts that are no project's own artifact are kept |
| `Dependencies.RemoveProjectArtifacts` | src/main/java/org/mobicents/maven/plugin/eclipse/ClasspathWriter.java:159-177 | the nested removal loops compute `WithoutProjectArtifacts` |
| `Dependencies.WithoutExcludedCorrect` | src/main/java/org/mobicents/maven/plugin/eclipse/ClasspathWriter.java:199-225 | a `null` exclusion set removes nothing; otherwise an artifact is kept exactly when its groupId, `groupId:artifactId` and `groupId:artifactId:version` are all absent from the set |
| `Dependencies.RemoveExcluded` | src/main/java/org/mobicents/maven/plugin/eclipse/ClasspathWriter.java:199-225 | the exclusion loop computes `WithoutExcluded` |
| `Dependencies.LibraryPathsCorrect` | src/main/java/org/mobicents/maven/plugin/eclipse/ClasspathWriter.java:227-250 | there are exactly as many paths as positions holding an artifact of an allowed type with a file; every path is that of such an artifact, and each such artifact contributes its path |
| `Dependencies.ArtifactPaths` | src/main/java/org/mobicents/maven/plugin/eclipse/ClasspathWriter.java:227-250 | the `ListIterator` loop computes `LibraryPaths` |
| `Dependencies.RepositoryFileStartsWithVariable` | src/main/java/org/mobicents/maven/plugin/eclipse/ClasspathWriter.java:239-242 | a file under a non-empty local repository directory gets a path that starts with the repository variable |
| `ClasspathWriter.ClasspathXmlWriter.WriteClasspathEntry` | src/main/java/org/mobicents/maven/plugin/eclipse/ClasspathWriter.java:381-387 | appends one `classpathentry` with the kind and the path |
| `ClasspathWriter.ClasspathXmlWriter.WriteMarkup` | src/main/java/org/mobicents/maven/plugin/eclipse/ClasspathWriter.java:279-281 | appends the raw markup |
| `ClasspathWriter.RootsUnionCorrect` | src/main/java/org/mobicents/maven/plugin/eclipse/ClasspathWriter.java:126-129 | the union stays strictly ascending and holds exactly the roots of all its parts |
| `ClasspathWriter.AllSourceRootsCorrect` | src/main/java/org/mobicents/maven/plugin/eclipse/ClasspathWriter.java:119-129 | the merged source roots are strictly ascending; they are exactly those of the root project and of every project |
| `ClasspathWriter.CollectProjects` | src/main/java/org/mobicents/maven/plugin/eclipse/ClasspathWriter.java:119-150 | the loop over the projects computes the merged source roots and the merged direct dependencies |
| `ClasspathWriter.TransitiveFiltersIncludes` | src/main/java/org/mobicents/maven/plugin/eclipse/ClasspathWriter.java:186-189 | the transitive filter includes exactly the artifacts that the compile, provided or test scope filter includes |
| `ClasspathWriter.ResolveTransitively` | src/main/java/org/mobicents/maven/plugin/eclipse/ClasspathWriter.java:180-197 | the resolver is called with the compile, provided and test filters, in that order; its artifacts replace the set's contents |
| `ClasspathWriter.RemainingArtifactsCorrect` | src/main/java/org/mobicents/maven/plugin/eclipse/ClasspathWriter.java:158-225 | no excluded artifact remains. Without transitive resolution, what remains are direct dependencies that are not project artifacts, and every direct dependency of the root or of any project that is neither a project artifact nor excluded remains. With it, exactly the resolved artifacts that are not excluded remain |
| `ClasspathWriter.SortedLibraryPathsCorrect` | src/main/java/org/mobicents/maven/plugin/eclipse/ClasspathWriter.java:227-253 | the sorted paths are ascending; they are exactly the paths of the located artifacts of an allowed type; any other ascending permutation equals them |
| `ClasspathWriter.SortedLibraryPaths` | src/main/java/org/mobicents/maven/plugin/eclipse/ClasspathWriter.java:158-253 | removal, transitive resolution, exclusion, typing and sorting compute the sorted paths of the remaining artifacts |
| `ClasspathWriter.RepositoryFileIsVariable` | src/main/java/org/mobicents/maven/plugin/eclipse/ClasspathWriter.java:239-259 | a file under the local repository is written as a `var` entry with its substituted path |
| `ClasspathWriter.WriteSourceEntries` | src/main/java/org/mobicents/maven/plugin/eclipse/ClasspathWriter.java:152-156 | appends one `src` entry per source root, in the set's order |
| `ClasspathWriter.WriteLibraryEntries` | src/main/java/org/mobicents/maven/plugin/eclipse/ClasspathWriter.java:255-266 | appends per sorted path a `var` entry, a `lib` entry relative to the root directory, or an absolute `lib` entry |
| `ClasspathWriter.WriteTrailer` | src/main/java/org/mobicents/maven/plugin/eclipse/ClasspathWriter.java:268-281 | appends the JRE container, then the output directory relative to the root directory, then the merge markup when it is not blank |
| `ClasspathWriter.Write` | src/main/java/org/mobicents/maven/plugin/eclipse/ClasspathWriter.java:93-286 | the children written into the `classpath` element are `ClasspathOf` of the inputs |
| `ClasspathWriter.DocumentLayout` | src/main/java/org/mobicents/maven/plugin/eclipse/ClasspathWriter.java:152-282 | every document is in sections: sources, libraries, one container, one output, then the markup. The markup comes last exactly when it is not blank |
| `ClasspathWriter.ClasspathLayout` | src/main/java/org/mobicents/maven/plugin/eclipse/ClasspathWriter.java:152-282 | the `.classpath` document has that section order. It holds the JRE container and the root project's output entry, and ends with the markup exactly when the markup is not blank |
| `ClasspathWriter.SourceSection` | src/main/java/org/mobicents/maven/plugin/eclipse/ClasspathWriter.java:119-156 | the `src` entries are exactly the source roots of the root project and every project, in strictly ascending order |
| `ClasspathWriter.LibraryEntriesHaveArtifacts` | src/main/java/org/mobicents/maven/plugin/eclipse/ClasspathWriter.java:227-266 | every `var` or `lib` entry is the entry of a remaining artifact of an allowed type that has a file |
| `ClasspathWriter.RemainingArtifactsHaveEntries` | src/main/java/org/mobicents/maven/plugin/eclipse/ClasspathWriter.java:227-266 | every remaining artifact of an allowed type that has a file has its entry |
| `ClasspathWriter.LibrarySectionOrder` | src/main/java/org/mobicents/maven/plugin/eclipse/ClasspathWriter.java:252-266 | right after the `src` entries come the entries of the artifact paths, in the one ascending order any sort gives |

## Left out

- Writing the file: `FileWriter`, the XML escaping of `PrettyPrintXMLWriter` and closing the writer are not modelled. The model stops at the sequence of children of the `classpath` element.
- Logging and `synchronized`. The model is sequential.
- Exceptions thrown by the artifact resolver. `resolve` is a function giving the file after the attempt, `None` when there is none. A failed resolution that aborts `write` is not modelled.
- The arguments of `resolveTransitively` other than the artifacts and the filter (root artifact, repositories, metadata source) are not modelled. The oracle sees only the artifact set and the OR of the three scope filters.
- Remote repositories are not modelled: each resolve call gets its own project's repositories in the source, but the model's `resolve` oracle ignores them.
- `java.io.File`: `isDirectory` is an oracle; `new File(basedir, "pom.xml")` is modelled as `ProjectUtils.PomOf` on already normalized paths. Platform-specific path rules (drive letters, a trailing separator) are not modelled.
- Relative paths follow the code, not a prefix reading. For library paths, `StringUtils.replace` removes every occurrence of the root directory plus `/`, not only the leading one. For the output path and for the source and resource roots, `Relativize` removes every occurrence of the root directory alone and then one leading `/`.
- `Strings.AtMost` compares Unicode scalar values. Java compares UTF-16 code units, so the order of strings that contain characters outside the Basic Multilingual Plane may differ.
- `ProjectUtils.ProjectCache.GetProject`: a builder that returns `null` without throwing stores `null` in the cache in the source. Here the builder returns `None` for a failed build and nothing is stored.
- The in-place `ListIterator.set`/`remove` rewrite of the artifact list (ClasspathWriter.java:227-250) builds a new sequence in the model. The loop's result is the same, but the update in place is not modelled.
- `ProjectWriter` and the Mojos that call `write` are not part of this model.

## Findings

| source | as written | input that shows it | evidently intended | confidence | as-written member | corrected member |
|---|---|---|---|---|---|---|
| src/main/java/org/mobicents/maven/plugin/eclipse/ClasspathWriter.java:354-360 | removes child entries with `sourcePaths.remove` inside a for-each over the same `TreeSet`; the fail-fast iterator throws `ConcurrentModificationException` on its next step after a removal, unless the removed entry was the last | source set `a`, `b/c`, `d` and resource directory `b`: `b/c` is removed, then the walk moves on to `d` | remove every entry the resource directory is a prefix of, then add the directory, giving `a`, `b`, `d` | not executed | `SourceRoots.ParentOfMiddleEntryThrows` | `SourceRoots.ParentOfMiddleEntryReplaced` |
