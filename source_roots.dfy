/**
 * `ClasspathWriter.collectSourceRoots`: the source and resource directories of
 * one project, relative to the root project's directory, as a
 * `TreeSet<String>` (a strictly ascending sequence here). Resource directories
 * nested in one another are reduced to the outermost, by raw string prefix.
 */
module SourceRoots {
  import opened Wrappers
  import opened Strings
  import opened PathNormalizer
  import opened Maven

  /** Removes every occurrence of the root directory, then one leading `/`. */
  function Relativize(path: string, rootDirectory: string): string {
    var stripped := Replace(path, rootDirectory, "");
    if StartsWith(stripped, "/") then stripped[1..] else stripped
  }

  /** A configured root that the model collects: normalized, and a directory. */
  predicate Collected(root: string, isDirectory: string -> bool) {
    isDirectory(Normalize(root))
  }

  /** The source-root loop: each configured root that is a directory is added, relativized. */
  function AddSourceRoots(paths: seq<string>, roots: seq<string>, rootDirectory: string,
                          isDirectory: string -> bool): (r: seq<string>)
    requires StrictlySorted(paths)
    ensures StrictlySorted(r)
    ensures forall x :: x in r <==> (x in paths
      || exists i :: 0 <= i < |roots| && Collected(roots[i], isDirectory)
                     && x == Relativize(Normalize(roots[i]), rootDirectory))
    decreases |roots|
  {
    if roots == [] then paths
    else
      var init := roots[..|roots| - 1];
      var before := AddSourceRoots(paths, init, rootDirectory, isDirectory);
      var root := Normalize(roots[|roots| - 1]);
      assert forall i :: 0 <= i < |init| ==> init[i] == roots[i];
      if isDirectory(root) then
        TreeSetAddCorrect(before, Relativize(root, rootDirectory));
        TreeSetAdd(before, Relativize(root, rootDirectory))
      else before
  }

  /** Some path of the set is a prefix of `path` (equality included). */
  predicate HasParentIn(paths: seq<string>, path: string) {
    exists p :: p in paths && StartsWith(path, p)
  }

  /** The entries of the set that do not start with `path`, in order. */
  function WithoutChildren(paths: seq<string>, path: string): seq<string>
    decreases |paths|
  {
    if paths == [] then []
    else
      var before := WithoutChildren(paths[..|paths| - 1], path);
      if StartsWith(paths[|paths| - 1], path) then before else before + [paths[|paths| - 1]]
  }

  /** Exactly the entries that do not start with `path` are kept, and the order is kept. */
  lemma {:induction false} WithoutChildrenCorrect(paths: seq<string>, path: string)
    ensures forall p :: p in WithoutChildren(paths, path) <==> p in paths && !StartsWith(p, path)
    ensures StrictlySorted(paths) ==> StrictlySorted(WithoutChildren(paths, path))
    decreases |paths|
  {
    if paths != [] {
      var init, last := paths[..|paths| - 1], paths[|paths| - 1];
      var before := WithoutChildren(init, path);
      WithoutChildrenCorrect(init, path);
      assert paths == init + [last];
      assert forall i :: 0 <= i < |init| ==> init[i] == paths[i];
      assert StrictlySorted(paths) ==> forall x :: x in before ==> Below(x, last);
    }
  }

  /**
   * One resource directory: skipped when an entry is a prefix of it;
   * otherwise every entry it is a prefix of is removed and it is added.
   */
  function AddResourceRoot(paths: seq<string>, path: string): seq<string> {
    if HasParentIn(paths, path) then paths else TreeSetAdd(WithoutChildren(paths, path), path)
  }

  /** The resource loop over the configured resource directories. */
  function AddResourceRoots(paths: seq<string>, resources: seq<string>, rootDirectory: string,
                            isDirectory: string -> bool): seq<string>
    decreases |resources|
  {
    if resources == [] then paths
    else
      var before := AddResourceRoots(paths, resources[..|resources| - 1], rootDirectory, isDirectory);
      var root := Normalize(resources[|resources| - 1]);
      if isDirectory(root) then AddResourceRoot(before, Relativize(root, rootDirectory)) else before
  }

  /** The source roots and test source roots of a project, without its resources. */
  function SourcePart(project: Project, rootDirectory: string, isDirectory: string -> bool): seq<string> {
    AddSourceRoots([], project.compileSourceRoots + project.testCompileSourceRoots, rootDirectory, isDirectory)
  }

  /** The set `collectSourceRoots` returns. */
  function CollectedRoots(project: Project, rootDirectory: string, includeResourcesDirectory: bool,
                          isDirectory: string -> bool): seq<string>
  {
    var sources := SourcePart(project, rootDirectory, isDirectory);
    if includeResourcesDirectory
    then AddResourceRoots(sources, project.resources + project.testResources, rootDirectory, isDirectory)
    else sources
  }

  /** No entry is a raw string prefix of another entry. */
  ghost predicate PrefixFree(paths: seq<string>) {
    forall p, q :: p in paths && q in paths && p != q ==> !StartsWith(q, p)
  }

  /** Some entry is a prefix of `path`: the path lies in (or is) a collected directory. */
  ghost predicate Covered(paths: seq<string>, path: string) {
    exists p :: p in paths && StartsWith(path, p)
  }

  lemma StartsWithTransitive(s: string, p: string, q: string)
    requires StartsWith(s, p) && StartsWith(p, q)
    ensures StartsWith(s, q)
  {
    assert s[..|q|] == s[..|p|][..|q|];
  }

  /** `x` is the relativized form of one of `roots` that is a directory. */
  ghost predicate FromRoots(x: string, roots: seq<string>, rootDirectory: string, isDirectory: string -> bool) {
    exists i :: 0 <= i < |roots| && Collected(roots[i], isDirectory) && x == Relativize(Normalize(roots[i]), rootDirectory)
  }

  /**
   * One resource directory. Skipped when an entry is a prefix of it; otherwise
   * exactly the entries it is a prefix of are replaced by it. The set stays
   * sorted and prefix-free, and covers the directory and everything covered
   * before. The parts are proved in the three lemmas below, one concern each,
   * to keep every proof small.
   */
  lemma AddResourceRootCorrect(paths: seq<string>, path: string)
    requires StrictlySorted(paths)
    ensures HasParentIn(paths, path) ==> AddResourceRoot(paths, path) == paths
    ensures !HasParentIn(paths, path) ==>
      forall x :: x in AddResourceRoot(paths, path) <==> (x in paths && !StartsWith(x, path)) || x == path
    ensures StrictlySorted(AddResourceRoot(paths, path))
    ensures PrefixFree(paths) ==> PrefixFree(AddResourceRoot(paths, path))
    ensures Covered(AddResourceRoot(paths, path), path)
    ensures forall x :: Covered(paths, x) ==> Covered(AddResourceRoot(paths, path), x)
  {
    AddResourceRootContents(paths, path);
    AddResourceRootSorted(paths, path);
    AddResourceRootCovers(paths, path);
  }

  /**
   * Which entries the set holds after one resource directory. Part of
   * `AddResourceRootCorrect`, proved on its own to keep each proof small.
   */
  lemma AddResourceRootContents(paths: seq<string>, path: string)
    requires StrictlySorted(paths)
    ensures !HasParentIn(paths, path) ==>
      forall x :: x in AddResourceRoot(paths, path) <==> (x in paths && !StartsWith(x, path)) || x == path
  {
    if !HasParentIn(paths, path) {
      WithoutChildrenCorrect(paths, path);
      TreeSetAddCorrect(WithoutChildren(paths, path), path);
    }
  }

  /**
   * One resource directory keeps the set ascending and prefix-free. Part of
   * `AddResourceRootCorrect`, proved on its own to keep each proof small.
   */
  lemma AddResourceRootSorted(paths: seq<string>, path: string)
    requires StrictlySorted(paths)
    ensures StrictlySorted(AddResourceRoot(paths, path))
    ensures PrefixFree(paths) ==> PrefixFree(AddResourceRoot(paths, path))
  {
    if !HasParentIn(paths, path) {
      WithoutChildrenCorrect(paths, path);
      TreeSetAddCorrect(WithoutChildren(paths, path), path);
    }
  }

  /**
   * The directory and everything covered before lie in an entry. Part of
   * `AddResourceRootCorrect`, proved on its own to keep each proof small.
   */
  lemma AddResourceRootCovers(paths: seq<string>, path: string)
    requires StrictlySorted(paths)
    ensures Covered(AddResourceRoot(paths, path), path)
    ensures forall x :: Covered(paths, x) ==> Covered(AddResourceRoot(paths, path), x)
  {
    var r := AddResourceRoot(paths, path);
    if !HasParentIn(paths, path) {
      var kept := WithoutChildren(paths, path);
      WithoutChildrenCorrect(paths, path);
      TreeSetAddCorrect(kept, path);
      assert StartsWith(path, path);
      forall x | Covered(paths, x) ensures Covered(r, x) {
        var p :| p in paths && StartsWith(x, p);
        if StartsWith(p, path) {
          StartsWithTransitive(x, p, path);
        } else {
          assert p in r;
        }
      }
    }
  }

  /**
   * The resource loop keeps the set sorted and prefix-free, loses no covered
   * path, covers every resource directory that exists, and adds nothing but
   * those directories. Each part has its own induction below, so that each
   * proof stays small.
   */
  lemma AddResourceRootsCorrect(paths: seq<string>, resources: seq<string>,
                                rootDirectory: string, isDirectory: string -> bool)
    requires StrictlySorted(paths)
    ensures StrictlySorted(AddResourceRoots(paths, resources, rootDirectory, isDirectory))
    ensures PrefixFree(paths) ==> PrefixFree(AddResourceRoots(paths, resources, rootDirectory, isDirectory))
    ensures forall x :: Covered(paths, x) ==> Covered(AddResourceRoots(paths, resources, rootDirectory, isDirectory), x)
    ensures forall i :: 0 <= i < |resources| && Collected(resources[i], isDirectory) ==>
      Covered(AddResourceRoots(paths, resources, rootDirectory, isDirectory),
              Relativize(Normalize(resources[i]), rootDirectory))
    ensures forall x :: x in AddResourceRoots(paths, resources, rootDirectory, isDirectory) ==>
      x in paths || FromRoots(x, resources, rootDirectory, isDirectory)
  {
    AddResourceRootsSorted(paths, resources, rootDirectory, isDirectory);
    AddResourceRootsKeep(paths, resources, rootDirectory, isDirectory);
    AddResourceRootsCover(paths, resources, rootDirectory, isDirectory);
    AddResourceRootsFrom(paths, resources, rootDirectory, isDirectory);
  }

  /**
   * The resource loop keeps prefix-freedom and loses no covered path. Part of
   * `AddResourceRootsCorrect`, proved on its own to keep each proof small.
   */
  lemma {:induction false} AddResourceRootsKeep(paths: seq<string>, resources: seq<string>,
                                                rootDirectory: string, isDirectory: string -> bool)
    requires StrictlySorted(paths)
    ensures PrefixFree(paths) ==> PrefixFree(AddResourceRoots(paths, resources, rootDirectory, isDirectory))
    ensures forall x :: Covered(paths, x) ==> Covered(AddResourceRoots(paths, resources, rootDirectory, isDirectory), x)
    decreases |resources|
  {
    if resources != [] {
      var init := resources[..|resources| - 1];
      var before := AddResourceRoots(paths, init, rootDirectory, isDirectory);
      AddResourceRootsKeep(paths, init, rootDirectory, isDirectory);
      AddResourceRootsSorted(paths, init, rootDirectory, isDirectory);
      var root := Normalize(resources[|resources| - 1]);
      if isDirectory(root) {
        AddResourceRootSorted(before, Relativize(root, rootDirectory));
        AddResourceRootCovers(before, Relativize(root, rootDirectory));
      }
    }
  }

  /**
   * The resource loop adds only collected resource directories. Part of
   * `AddResourceRootsCorrect`, proved on its own to keep each proof small.
   */
  lemma {:induction false} AddResourceRootsFrom(paths: seq<string>, resources: seq<string>,
                                                rootDirectory: string, isDirectory: string -> bool)
    requires StrictlySorted(paths)
    ensures forall x :: x in AddResourceRoots(paths, resources, rootDirectory, isDirectory) ==>
      x in paths || FromRoots(x, resources, rootDirectory, isDirectory)
    decreases |resources|
  {
    if resources != [] {
      var init := resources[..|resources| - 1];
      var last := resources[|resources| - 1];
      var before := AddResourceRoots(paths, init, rootDirectory, isDirectory);
      AddResourceRootsFrom(paths, init, rootDirectory, isDirectory);
      AddResourceRootsSorted(paths, init, rootDirectory, isDirectory);
      var root := Normalize(last);
      if isDirectory(root) {
        AddResourceRootContents(before, Relativize(root, rootDirectory));
      }
      forall x | x in AddResourceRoots(paths, resources, rootDirectory, isDirectory)
        ensures x in paths || FromRoots(x, resources, rootDirectory, isDirectory)
      {
        if x in before {
          if !(x in paths) {
            var i :| 0 <= i < |init| && Collected(init[i], isDirectory) && x == Relativize(Normalize(init[i]), rootDirectory);
            assert resources[i] == init[i];
          }
        } else {
          assert isDirectory(root) && x == Relativize(root, rootDirectory);
          assert resources[|resources| - 1] == last;
        }
      }
    }
  }

  /**
   * The resource loop keeps the set in ascending order. Part of
   * `AddResourceRootsCorrect`, proved on its own to keep each proof small.
   */
  lemma {:induction false} AddResourceRootsSorted(paths: seq<string>, resources: seq<string>,
                                                  rootDirectory: string, isDirectory: string -> bool)
    requires StrictlySorted(paths)
    ensures StrictlySorted(AddResourceRoots(paths, resources, rootDirectory, isDirectory))
    decreases |resources|
  {
    if resources != [] {
      var init := resources[..|resources| - 1];
      AddResourceRootsSorted(paths, init, rootDirectory, isDirectory);
      var root := Normalize(resources[|resources| - 1]);
      if isDirectory(root) {
        AddResourceRootSorted(AddResourceRoots(paths, init, rootDirectory, isDirectory), Relativize(root, rootDirectory));
      }
    }
  }

  /**
   * Every collected resource directory lies in an entry. Part of
   * `AddResourceRootsCorrect`, proved on its own to keep each proof small.
   */
  lemma {:induction false} AddResourceRootsCover(paths: seq<string>, resources: seq<string>,
                                                 rootDirectory: string, isDirectory: string -> bool)
    requires StrictlySorted(paths)
    ensures forall i :: 0 <= i < |resources| && Collected(resources[i], isDirectory) ==>
      Covered(AddResourceRoots(paths, resources, rootDirectory, isDirectory),
              Relativize(Normalize(resources[i]), rootDirectory))
    decreases |resources|
  {
    if resources != [] {
      var init := resources[..|resources| - 1];
      var before := AddResourceRoots(paths, init, rootDirectory, isDirectory);
      var r := AddResourceRoots(paths, resources, rootDirectory, isDirectory);
      AddResourceRootsCover(paths, init, rootDirectory, isDirectory);
      AddResourceRootsSorted(paths, init, rootDirectory, isDirectory);
      var root := Normalize(resources[|resources| - 1]);
      if isDirectory(root) {
        AddResourceRootCovers(before, Relativize(root, rootDirectory));
      }
      forall i | 0 <= i < |resources| && Collected(resources[i], isDirectory)
        ensures Covered(r, Relativize(Normalize(resources[i]), rootDirectory))
      {
        if i < |init| {
          assert init[i] == resources[i];
          assert Covered(before, Relativize(Normalize(init[i]), rootDirectory));
        }
      }
    }
  }

  /**
   * The returned set is in ascending order. Proved apart from
   * `CollectedRootsCorrect` for callers that need only the order.
   */
  lemma CollectedRootsSorted(project: Project, rootDirectory: string, includeResourcesDirectory: bool,
                             isDirectory: string -> bool)
    ensures StrictlySorted(CollectedRoots(project, rootDirectory, includeResourcesDirectory, isDirectory))
  {
    if includeResourcesDirectory {
      AddResourceRootsSorted(SourcePart(project, rootDirectory, isDirectory), project.resources + project.testResources,
                             rootDirectory, isDirectory);
    }
  }

  /**
   * The returned set is in ascending order; it is prefix-free when its
   * source-root part is; every collected source root and every collected
   * resource directory lies in one of its entries; and every entry is a
   * collected source root or, when resources are included, a collected
   * resource directory.
   */
  lemma CollectedRootsCorrect(project: Project, rootDirectory: string, includeResourcesDirectory: bool,
                              isDirectory: string -> bool)
    ensures StrictlySorted(CollectedRoots(project, rootDirectory, includeResourcesDirectory, isDirectory))
    ensures PrefixFree(SourcePart(project, rootDirectory, isDirectory)) ==>
      PrefixFree(CollectedRoots(project, rootDirectory, includeResourcesDirectory, isDirectory))
    ensures forall x :: x in SourcePart(project, rootDirectory, isDirectory) ==>
      Covered(CollectedRoots(project, rootDirectory, includeResourcesDirectory, isDirectory), x)
    ensures includeResourcesDirectory ==>
      forall i :: (0 <= i < |project.resources + project.testResources|
                   && Collected((project.resources + project.testResources)[i], isDirectory)) ==>
        Covered(CollectedRoots(project, rootDirectory, includeResourcesDirectory, isDirectory),
                Relativize(Normalize((project.resources + project.testResources)[i]), rootDirectory))
    ensures forall x :: x in CollectedRoots(project, rootDirectory, includeResourcesDirectory, isDirectory) ==>
      FromRoots(x, project.compileSourceRoots + project.testCompileSourceRoots, rootDirectory, isDirectory)
      || (includeResourcesDirectory && FromRoots(x, project.resources + project.testResources, rootDirectory, isDirectory))
  {
    var sources := SourcePart(project, rootDirectory, isDirectory);
    forall x | x in sources ensures Covered(sources, x) {
      assert StartsWith(x, x);
    }
    if includeResourcesDirectory {
      AddResourceRootsCorrect(sources, project.resources + project.testResources, rootDirectory, isDirectory);
    }
    CollectedRootsFrom(project, rootDirectory, includeResourcesDirectory, isDirectory);
  }

  /**
   * Every entry is a collected source root or resource directory. Part of
   * `CollectedRootsCorrect`, proved on its own to keep each proof small.
   */
  lemma CollectedRootsFrom(project: Project, rootDirectory: string, includeResourcesDirectory: bool,
                           isDirectory: string -> bool)
    ensures forall x :: x in CollectedRoots(project, rootDirectory, includeResourcesDirectory, isDirectory) ==>
      FromRoots(x, project.compileSourceRoots + project.testCompileSourceRoots, rootDirectory, isDirectory)
      || (includeResourcesDirectory && FromRoots(x, project.resources + project.testResources, rootDirectory, isDirectory))
  {
    var sources := SourcePart(project, rootDirectory, isDirectory);
    assert forall x :: x in sources ==>
      FromRoots(x, project.compileSourceRoots + project.testCompileSourceRoots, rootDirectory, isDirectory);
    if includeResourcesDirectory {
      AddResourceRootsFrom(sources, project.resources + project.testResources, rootDirectory, isDirectory);
    }
  }

  /** The first loop over the set: is some entry a prefix of `path`? Stops at the first. */
  method HasParent(sourcePaths: seq<string>, path: string) returns (found: bool)
    ensures found <==> HasParentIn(sourcePaths, path)
  {
    found := false;
    var i := 0;
    while i < |sourcePaths|
      invariant 0 <= i <= |sourcePaths|
      invariant forall j :: 0 <= j < i ==> !StartsWith(path, sourcePaths[j])
    {
      if StartsWith(path, sourcePaths[i]) {
        found := true;
        break;
      }
      i := i + 1;
    }
  }

  /** The second loop over the set: drops every entry that starts with `path`. */
  method RemoveChildren(sourcePaths: seq<string>, path: string) returns (kept: seq<string>)
    ensures kept == WithoutChildren(sourcePaths, path)
  {
    kept := [];
    for i := 0 to |sourcePaths|
      invariant kept == WithoutChildren(sourcePaths[..i], path)
    {
      assert sourcePaths[..i + 1][..i] == sourcePaths[..i];
      if !StartsWith(sourcePaths[i], path) {
        kept := kept + [sourcePaths[i]];
      }
    }
    assert sourcePaths[..|sourcePaths|] == sourcePaths;
  }

  /** The loop over the configured source roots. */
  method CollectSources(sourceRoots: seq<string>, rootDirectory: string, isDirectory: string -> bool)
    returns (sourcePaths: seq<string>)
    ensures sourcePaths == AddSourceRoots([], sourceRoots, rootDirectory, isDirectory)
  {
    sourcePaths := [];
    for i := 0 to |sourceRoots|
      invariant sourcePaths == AddSourceRoots([], sourceRoots[..i], rootDirectory, isDirectory)
    {
      assert sourceRoots[..i + 1][..i] == sourceRoots[..i];
      var sourceRoot := Normalize(sourceRoots[i]);
      if isDirectory(sourceRoot) {
        sourcePaths := TreeSetAdd(sourcePaths, Relativize(sourceRoot, rootDirectory));
      }
    }
    assert sourceRoots[..|sourceRoots|] == sourceRoots;
  }

  /** The loop over the configured resource directories. */
  method CollectResources(sources: seq<string>, resources: seq<string>, rootDirectory: string,
                          isDirectory: string -> bool) returns (sourcePaths: seq<string>)
    ensures sourcePaths == AddResourceRoots(sources, resources, rootDirectory, isDirectory)
  {
    sourcePaths := sources;
    for i := 0 to |resources|
      invariant sourcePaths == AddResourceRoots(sources, resources[..i], rootDirectory, isDirectory)
    {
      assert resources[..i + 1][..i] == resources[..i];
      var resourceRoot := Normalize(resources[i]);
      if isDirectory(resourceRoot) {
        var resourceSourceRootPath := Relativize(resourceRoot, rootDirectory);
        var hasParent := HasParent(sourcePaths, resourceSourceRootPath);
        if !hasParent {
          sourcePaths := RemoveChildren(sourcePaths, resourceSourceRootPath);
          sourcePaths := TreeSetAdd(sourcePaths, resourceSourceRootPath);
        }
      }
    }
    assert resources[..|resources|] == resources;
  }

  /** `collectSourceRoots(project, rootDirectory, writer, includeResourcesDirectory)`. */
  method CollectSourceRoots(project: Project, rootDirectory: string, includeResourcesDirectory: bool,
                            isDirectory: string -> bool) returns (sourcePaths: seq<string>)
    ensures sourcePaths == CollectedRoots(project, rootDirectory, includeResourcesDirectory, isDirectory)
  {
    sourcePaths := CollectSources(project.compileSourceRoots + project.testCompileSourceRoots, rootDirectory, isDirectory);
    if includeResourcesDirectory {
      sourcePaths := CollectResources(sourcePaths, project.resources + project.testResources, rootDirectory, isDirectory);
    }
  }

  /** How the for-each removal loop of the Java code can end. */
  datatype IterationError = ConcurrentModification

  /**
   * The removal loop as written: it removes through the `TreeSet` itself while
   * a for-each iterator walks it. The iterator is fail-fast, so once an entry
   * has been removed, the next step of the walk throws; only a removal of the
   * last entry goes unnoticed.
   */
  function RemoveChildrenAsWritten(sourcePaths: seq<string>, path: string): Result<seq<string>, IterationError> {
    if exists i :: 0 <= i < |sourcePaths| - 1 && StartsWith(sourcePaths[i], path)
    then Failure(ConcurrentModification)
    else Success(WithoutChildren(sourcePaths, path))
  }

  /** One resource directory, as written. */
  function AddResourceRootAsWritten(sourcePaths: seq<string>, path: string): Result<seq<string>, IterationError> {
    if HasParentIn(sourcePaths, path) then Success(sourcePaths)
    else match RemoveChildrenAsWritten(sourcePaths, path)
      case Success(kept) => Success(TreeSetAdd(kept, path))
      case Failure(e) => Failure(e)
  }

  /**
   * A resource directory that is the parent of an entry other than the last
   * one: the code as written throws.
   */
  lemma ParentOfMiddleEntryThrows()
    ensures AddResourceRootAsWritten(["a", "b/c", "d"], "b") == Failure(ConcurrentModification)
  {
    var paths: seq<string> := ["a", "b/c", "d"];
    assert "b"[..1] == ['b'] && ['b'] != "a" && ['b'] != "d";
    assert !StartsWith("b", "a") && !StartsWith("b", "b/c") && !StartsWith("b", "d");
    assert !HasParentIn(paths, "b");
    assert StartsWith(paths[1], "b");
  }

  /** The same input under the corrected loop: the child is replaced by its parent. */
  lemma ParentOfMiddleEntryReplaced()
    ensures AddResourceRoot(["a", "b/c", "d"], "b") == ["a", "b", "d"]
  {
    var paths: seq<string> := ["a", "b/c", "d"];
    assert "b"[..1] == ['b'] && ['b'] != "a" && ['b'] != "d";
    assert !StartsWith("b", "a") && !StartsWith("b", "b/c") && !StartsWith("b", "d");
    assert !HasParentIn(paths, "b");
    MiddleChildRemoved();
    ParentInserted();
  }

  lemma MiddleChildRemoved()
    ensures WithoutChildren(["a", "b/c", "d"], "b") == ["a", "d"]
  {
    var paths: seq<string> := ["a", "b/c", "d"];
    assert "a"[..1] == "a" && "a"[0] != "b"[0];
    assert "d"[..1] == "d" && "d"[0] != "b"[0];
    assert "b/c"[..1] == "b";
    assert !StartsWith("a", "b") && !StartsWith("d", "b") && StartsWith("b/c", "b");
    assert paths[..2] == ["a", "b/c"] && paths[..2][..1] == ["a"];
    assert WithoutChildren(["a"], "b") == ["a"];
    assert WithoutChildren(["a", "b/c"], "b") == ["a"];
  }

  lemma ParentInserted()
    ensures TreeSetAdd(["a", "d"], "b") == ["a", "b", "d"]
  {
    var kept: seq<string> := ["a", "d"];
    assert "b" != "a" && "b" != "d";
    assert "b" !in kept;
    assert !AtMost("b", "a") && AtMost("b", "d");
    assert InsertOrdered(kept[1..], "b") == ["b", "d"];
  }
}
