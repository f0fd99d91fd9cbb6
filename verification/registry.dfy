/**
 * The registry's state as a value: a map from environment name to the
 * ordered, duplicate-free list of plugin identifiers forced in that
 * environment, with the effect of `register` and `unregister` on it.
 */
module Registry {

  import opened Lists

  type Storage = map<string, seq<string>>

  /**
   * The invariant the registry keeps from construction on: the current
   * environment always has a list, and no list holds a plugin twice.
   */
  ghost predicate Consistent(storage: Storage, current: string)
  {
    && current in storage
    && forall env :: env in storage ==> NoDup(storage[env])
  }

  /** The list for `env`, an unknown environment reading as empty. */
  function Listed(storage: Storage, env: string): seq<string>
  {
    if env in storage then storage[env] else []
  }

  /** Whether some environment, current or not, lists `plugin`. */
  predicate RegisteredAnywhere(storage: Storage, plugin: string)
  {
    exists env :: env in storage && plugin in storage[env]
  }

  /** The storage after `register(env, plugin)`. */
  function Registered(storage: Storage, env: string, plugin: string): (r: Storage)
    ensures r.Keys == storage.Keys + {env}
    ensures forall e :: e in storage && e != env ==> r[e] == storage[e]
    ensures Listed(storage, env) <= r[env] && plugin in r[env]
    ensures plugin in Listed(storage, env) ==> r == storage
    ensures plugin !in Listed(storage, env) ==> r[env] == Listed(storage, env) + [plugin]
  {
    storage[env := Insert(Listed(storage, env), plugin)]
  }

  /** The storage after `unregister(env, plugin)`. */
  function Unregistered(storage: Storage, env: string, plugin: string): (r: Storage)
    ensures r.Keys == storage.Keys
    ensures forall e :: e in storage && e != env ==> r[e] == storage[e]
    ensures plugin !in Listed(r, env)
    ensures plugin !in Listed(storage, env) ==> r == storage
    ensures forall p :: p != plugin ==> (p in Listed(r, env) <==> p in Listed(storage, env))
  {
    if env in storage then storage[env := Without(storage[env], plugin)] else storage
  }

  /** Registering keeps the registry's invariant. */
  lemma RegisterKeepsConsistent(storage: Storage, current: string, env: string, plugin: string)
    requires Consistent(storage, current)
    ensures Consistent(Registered(storage, env, plugin), current)
  {
    InsertNoDup(Listed(storage, env), plugin);
  }

  /** Unregistering keeps the registry's invariant. */
  lemma UnregisterKeepsConsistent(storage: Storage, current: string, env: string, plugin: string)
    requires Consistent(storage, current)
    ensures Consistent(Unregistered(storage, env, plugin), current)
  {
    if env in storage {
      WithoutNoDup(storage[env], plugin);
    }
  }

  /**
   * When the plugin is listed, unregistering removes exactly the entry strict
   * search finds: the entries before it keep their positions, those after it
   * move up by one, and the multiset loses exactly one copy of the plugin.
   */
  lemma UnregisterRemovesFoundEntry(storage: Storage, current: string, env: string, plugin: string, i: nat)
    requires Consistent(storage, current)
    requires env in storage && IndexOf(storage[env], plugin) == Some(i)
    ensures Unregistered(storage, env, plugin)[env] == storage[env][..i] + storage[env][i + 1..]
    ensures multiset(Unregistered(storage, env, plugin)[env]) == multiset(storage[env]) - multiset{plugin}
  {
    RemoveFoundIsWithout(storage[env], plugin, i);
  }

  /** After `register(env, plugin)` the plugin occurs exactly once in the list for `env`. */
  lemma RegisterOccursOnce(storage: Storage, env: string, plugin: string)
    requires NoDup(Listed(storage, env))
    ensures multiset(Registered(storage, env, plugin)[env])[plugin] == 1
  {
    InsertNoDup(Listed(storage, env), plugin);
  }

  /** Registering the same plugin twice has the effect of registering it once. */
  lemma RegisterIdempotent(storage: Storage, env: string, plugin: string)
    ensures Registered(Registered(storage, env, plugin), env, plugin) == Registered(storage, env, plugin)
  {
  }

  /**
   * Unregistering a plugin just registered under a known environment
   * restores the storage it was registered into.
   */
  lemma UnregisterUndoesRegister(storage: Storage, env: string, plugin: string)
    requires env in storage && plugin !in storage[env]
    ensures Unregistered(Registered(storage, env, plugin), env, plugin) == storage
  {
    WithoutInsert(storage[env], plugin);
  }

  /**
   * Unregistering from an environment never registered to, or one whose list
   * is empty, changes nothing and creates no key.
   */
  lemma UnregisterUnknownIsNoop(storage: Storage, env: string, plugin: string)
    requires env !in storage || storage[env] == []
    ensures Unregistered(storage, env, plugin) == storage
    ensures env !in storage ==> env !in Unregistered(storage, env, plugin)
  {
  }

  /**
   * Registering three distinct plugins and then unregistering the middle one
   * leaves the other two in registration order; the environment stays known.
   */
  lemma {:induction false} UnregisterKeepsOrder(storage: Storage, env: string, p1: string, p2: string, p3: string)
    requires Listed(storage, env) == []
    requires p1 != p2 && p2 != p3 && p1 != p3
    ensures
      var s := Registered(Registered(Registered(storage, env, p1), env, p2), env, p3);
      Unregistered(s, env, p2)[env] == [p1, p3]
  {
    var s := Registered(Registered(Registered(storage, env, p1), env, p2), env, p3);
    assert s[env] == [p1, p2, p3];
    assert Without([p1, p2, p3], p2) == [p1] + Without([p2, p3], p2);
    assert Without([p2, p3], p2) == Without([p3], p2);
    assert Without([p3], p2) == [p3] + Without([], p2);
  }
}
