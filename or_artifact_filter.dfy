/** `OrArtifactFilter`: includes an artifact when one of its filters does. */
module Filters {
  import opened Maven

  /** Some filter of `filters` includes `a`. */
  predicate AnyIncludes(filters: seq<ArtifactFilter>, a: Artifact) {
    exists i :: 0 <= i < |filters| && filters[i](a)
  }

  /** Appending a filter adds exactly what that filter includes. */
  lemma AnyIncludesAppend(filters: seq<ArtifactFilter>, f: ArtifactFilter, a: Artifact)
    ensures AnyIncludes(filters + [f], a) <==> AnyIncludes(filters, a) || f(a)
  {
    var all := filters + [f];
    if AnyIncludes(filters, a) {
      var i :| 0 <= i < |filters| && filters[i](a);
      assert all[i] == filters[i];
    }
    if f(a) {
      assert all[|filters|] == f;
    }
    if AnyIncludes(all, a) {
      var i :| 0 <= i < |all| && all[i](a);
      assert i < |filters| ==> all[i] == filters[i];
    }
  }

  class OrArtifactFilter {
    /** The filters, in the order they were added. */
    var filters: seq<ArtifactFilter>

    constructor ()
      ensures filters == []
    {
      filters := [];
    }

    /**
     * `include(artifact)`. The ghost `consulted` counts the filters asked:
     * the scan stops at the first filter that includes the artifact.
     */
    method Include(artifact: Artifact) returns (included: bool, ghost consulted: nat)
      ensures included <==> AnyIncludes(filters, artifact)
      ensures consulted <= |filters|
      ensures forall i :: 0 <= i < consulted - 1 ==> !filters[i](artifact)
      ensures included ==> 0 < consulted && filters[consulted - 1](artifact)
      ensures !included ==> consulted == |filters|
    {
      included := false;
      consulted := 0;
      var i := 0;
      while i < |filters|
        invariant 0 <= i <= |filters|
        invariant consulted == i
        invariant forall j :: 0 <= j < i ==> !filters[j](artifact)
      {
        consulted := consulted + 1;
        if filters[i](artifact) {
          included := true;
          break;
        }
        i := i + 1;
      }
    }

    /** `add(artifactFilter)`: appends; an included artifact stays included. */
    method Add(artifactFilter: ArtifactFilter)
      modifies this
      ensures filters == old(filters) + [artifactFilter]
      ensures forall a :: AnyIncludes(filters, a) <==> old(AnyIncludes(filters, a)) || artifactFilter(a)
    {
      forall a ensures AnyIncludes(filters + [artifactFilter], a) <==> AnyIncludes(filters, a) || artifactFilter(a) {
        AnyIncludesAppend(filters, artifactFilter, a);
      }
      filters := filters + [artifactFilter];
    }
  }
}
