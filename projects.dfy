/**
 * `Projects`: a store of project ids behind a lazily created shared
 * instance. The static field `instance` is the field of a `ProjectsRegistry`
 * object that callers share.
 */
module ProjectStore {

  class Projects {
    /** The stored ids; a list, so an id may be stored twice. */
    var projects: seq<string>

    constructor ()
      ensures projects == []
    {
      projects := [];
    }

    /** `add(projectId)`: afterwards the id is present, and so is every id present before. */
    method Add(projectId: string)
      modifies this
      ensures projects == old(projects) + [projectId]
      ensures forall id :: id in projects <==> id in old(projects) || id == projectId
    {
      projects := projects + [projectId];
    }

    /** `isPresent(projectId)`: reads the store and changes nothing. */
    method IsPresent(projectId: string) returns (present: bool)
      ensures present <==> exists i :: 0 <= i < |projects| && projects[i] == projectId
    {
      present := projectId in projects;
    }

    /** `clear()`: empties this store and drops the shared instance. */
    method Clear(registry: ProjectsRegistry)
      modifies this, registry
      ensures projects == []
      ensures registry.instance == null
      ensures forall id :: id !in projects
    {
      projects := [];
      registry.instance := null;
    }
  }

  /** Holder of the static field `Projects.instance`. */
  class ProjectsRegistry {
    var instance: Projects?

    constructor ()
      ensures instance == null
    {
      instance := null;
    }

    /**
     * `Projects.instance()`: the same object on every call until `clear`;
     * after `clear`, a new empty store.
     */
    method Instance() returns (store: Projects)
      modifies this
      ensures old(instance) != null ==> store == old(instance)
      ensures old(instance) == null ==> fresh(store) && store.projects == []
      ensures instance == store
    {
      if instance == null {
        instance := new Projects();
      }
      store := instance;
    }
  }
}
