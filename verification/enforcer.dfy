/**
 * The enforcer: a registry of plugins forced per environment, built once for
 * the environment the host runs in, and the two host filters it serves: the
 * active-plugins list and the per-plugin row of action links.
 */
module Enforcer {

  import opened Lists
  import opened ActionLinks
  import opened Registry

  class Enforcer {
    /** The host's environment classification, captured at construction. */
    const currentEnvironment: string
    var storage: Storage

    ghost predicate Valid()
      reads this
    {
      Consistent(storage, currentEnvironment)
    }

    /** The registry starts with one key, the current environment, listing nothing. */
    constructor (environment: string)
      ensures currentEnvironment == environment
      ensures storage == map[environment := []]
      ensures Valid()
    {
      currentEnvironment := environment;
      storage := map[environment := []];
    }

    /** Forces `plugin` in `environment`, appending it unless already listed. */
    method Register(environment: string, plugin: string)
      requires Valid()
      modifies this
      ensures Valid()
      ensures storage == Registered(old(storage), environment, plugin)
    {
      if environment !in storage || storage[environment] == [] {
        storage := storage[environment := []];
      }
      if plugin !in storage[environment] {
        storage := storage[environment := storage[environment] + [plugin]];
      }
      RegisterKeepsConsistent(old(storage), currentEnvironment, environment, plugin);
    }

    /** Stops forcing `plugin` in `environment`; unknown or absent means no change. */
    method Unregister(environment: string, plugin: string)
      requires Valid()
      modifies this
      ensures Valid()
      ensures storage == Unregistered(old(storage), environment, plugin)
    {
      if environment !in storage || storage[environment] == [] {
        return;
      }
      var index := IndexOf(storage[environment], plugin);
      if index.None? {
        return;
      }
      RemoveFoundIsWithout(storage[environment], plugin, index.value);
      storage := storage[environment := RemoveAt(storage[environment], index.value)];
      UnregisterKeepsConsistent(old(storage), currentEnvironment, environment, plugin);
    }

    /**
     * The host's saved active plugins followed by those forced in the current
     * environment, in registration order, with no deduplication.
     */
    function MaybeInsertPlugins(saved: seq<string>): (r: seq<string>)
      reads this
      requires Valid()
      ensures |r| == |saved| + |storage[currentEnvironment]|
      ensures r[..|saved|] == saved
      ensures r[|saved|..] == storage[currentEnvironment]
      ensures multiset(r) == multiset(saved) + multiset(storage[currentEnvironment])
      ensures forall p :: p !in storage[currentEnvironment] ==> (p in r <==> p in saved)
    {
      saved + storage[currentEnvironment]
    }

    /**
     * The action links for `plugin`'s row: without the deactivate link exactly
     * when `plugin` is forced in the current environment, otherwise as given.
     */
    function MaybeHideLinks(displayed: Actions, plugin: string): (r: Actions)
      reads this
      requires Valid()
      ensures r == if plugin in storage[currentEnvironment] then Unset(displayed, Deactivate) else displayed
      ensures HasKey(displayed, Deactivate) ==>
                (HasKey(r, Deactivate) <==> plugin !in storage[currentEnvironment])
      ensures forall i :: 0 <= i < |displayed| && displayed[i].0 != Deactivate ==> displayed[i] in r
      ensures forall e :: e in r ==> e in displayed
    {
      if !RegisteredAnywhere(storage, plugin) then
        displayed
      else if plugin in storage[currentEnvironment] then
        Unset(displayed, Deactivate)
      else
        displayed
    }
  }

  /** The deactivate link goes only for a plugin forced in the current environment. */
  method HideRun(local: string, production: string, a: string, p: string)
    requires local != production && a != p
  {
    var enforcer := new Enforcer(local);
    enforcer.Register(local, a);
    enforcer.Register(production, p);
    assert enforcer.storage[local] == [a];
    var actions := [(Deactivate, ""), ("delete", "")];
    assert Deactivate[2] != "delete"[2];
    assert Unset(actions, Deactivate) == [("delete", "")];
    assert enforcer.MaybeHideLinks(actions, a) == [("delete", "")];
    assert enforcer.MaybeHideLinks(actions, p) == actions;
  }

  /** Unregistering from an unknown environment creates nothing; removal keeps the key. */
  method UnregisterRun(local: string, staging: string, a: string)
    requires local != staging
  {
    var enforcer := new Enforcer(local);
    enforcer.Unregister(staging, a);
    assert enforcer.storage == map[local := []];
    enforcer.Register(staging, a);
    enforcer.Unregister(staging, a);
    assert enforcer.storage == map[local := [], staging := []];
  }
}
