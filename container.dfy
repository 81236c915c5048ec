/**
 * The service registry: objects indexed by a case-insensitive name, each
 * name registered at most once, reached through a lazily created single
 * instance.
 */
module Containers {
  import opened Wrappers
  import opened PhpStrings
  import opened Exceptions

  const CONTAINER_FILE := "src/MdeService/Container.php"

  function OverrideFault(name: string): Fault {
    Fault("Exception", "A container entry can not be override! (for \"" + name + "\")", CONTAINER_FILE, 135)
  }

  /**
   * The registry proper. Names are stored lower-cased. Registering null
   * leaves no entry that `isset` would see, so it is modelled as leaving the
   * registry as it was.
   */
  class Container<H> {
    var registry: map<string, H>

    ghost predicate Valid()
      reads this
    {
      forall name :: name in registry ==> Lower(name) == name
    }

    constructor()
      ensures Valid() && registry == map[]
    {
      registry := map[];
    }

    /** `_set`: registers an object under a new name; a name already taken throws and changes nothing. */
    method Set(name: string, obj: Option<H>) returns (thrown: Option<Fault>)
      requires Valid()
      modifies this
      ensures Valid()
      ensures Lower(name) in old(registry) ==> thrown == Some(OverrideFault(Lower(name))) && registry == old(registry)
      ensures Lower(name) !in old(registry) && obj.Some? ==>
        thrown.None? && registry == old(registry)[Lower(name) := obj.value]
      ensures Lower(name) !in old(registry) && obj.None? ==> thrown.None? && registry == old(registry)
    {
      var key := Lower(name);
      LowerIdempotent(name);
      if key !in registry {
        if obj.Some? {
          registry := registry[key := obj.value];
        }
        thrown := None;
      } else {
        thrown := Some(OverrideFault(key));
      }
    }

    /** `_get`: the object registered under any spelling of the name, or null. */
    function Get(name: string): (r: Option<H>)
      reads this
      ensures r.Some? <==> Lower(name) in registry
      ensures r.Some? ==> r.value == registry[Lower(name)]
    {
      if Lower(name) in registry then Some(registry[Lower(name)]) else None
    }

    /** `_exists`: whether `_get` finds something under any spelling of the name. */
    predicate Exists(name: string)
      reads this
      ensures Exists(name) <==> Get(name).Some?
    {
      Lower(name) in registry
    }

    /** `_delete`: forgets the name; deleting an unknown name does nothing. */
    method Delete(name: string)
      requires Valid()
      modifies this
      ensures Valid()
      ensures registry == old(registry) - {Lower(name)}
      ensures Lower(name) !in old(registry) ==> registry == old(registry)
    {
      var key := Lower(name);
      if key in registry {
        registry := registry - {key};
      }
    }
  }

  /** Lookups ignore case: a name and its upper-case spelling reach the same entry. */
  lemma LookupIgnoresCase<H>(c: Container<H>, name: string)
    ensures c.Get(Upper(name)) == c.Get(name)
    ensures c.Exists(Upper(name)) == c.Exists(name)
  {
    LowerOfUpper(name);
  }

  /** The static side: one lazily created container, shared by every static call. */
  class ContainerAccess<H> {
    var instance: Container?<H>

    ghost predicate Valid()
      reads this, instance
    {
      instance != null ==> instance.Valid()
    }

    constructor()
      ensures Valid() && instance == null
    {
      instance := null;
    }

    /** `getInstance`: creates the container on first use and returns the same one afterwards. */
    method GetInstance() returns (c: Container<H>)
      requires Valid()
      modifies this
      ensures Valid() && instance == c && c.Valid()
      ensures old(instance) != null ==> c == old(instance)
      ensures old(instance) == null ==> fresh(c) && c.registry == map[]
    {
      if instance == null {
        instance := new Container<H>();
      }
      c := instance;
    }

    method Set(name: string, obj: Option<H>) returns (thrown: Option<Fault>)
      requires Valid()
      modifies this, instance
      ensures Valid() && instance != null
      ensures old(instance) != null ==> instance == old(instance)
      ensures var before := if old(instance) == null then map[] else old(instance.registry);
        && (Lower(name) in before ==> thrown == Some(OverrideFault(Lower(name))) && instance.registry == before)
        && (Lower(name) !in before && obj.Some? ==> thrown.None? && instance.registry == before[Lower(name) := obj.value])
        && (Lower(name) !in before && obj.None? ==> thrown.None? && instance.registry == before)
    {
      var c := GetInstance();
      thrown := c.Set(name, obj);
    }

    method Get(name: string) returns (r: Option<H>)
      requires Valid()
      modifies this
      ensures Valid() && instance != null
      ensures old(instance) != null ==> instance == old(instance) && r == old(instance.Get(name))
      ensures old(instance) == null ==> r.None?
    {
      var c := GetInstance();
      r := c.Get(name);
    }

    method Exists(name: string) returns (b: bool)
      requires Valid()
      modifies this
      ensures Valid() && instance != null
      ensures b == (old(instance) != null && old(instance.Exists(name)))
    {
      var c := GetInstance();
      b := c.Exists(name);
    }

    method Delete(name: string)
      requires Valid()
      modifies this, instance
      ensures Valid() && instance != null
      ensures old(instance) != null ==> instance == old(instance) && instance.registry == old(instance.registry) - {Lower(name)}
      ensures old(instance) == null ==> instance.registry == map[]
    {
      var c := GetInstance();
      c.Delete(name);
    }
  }
}
