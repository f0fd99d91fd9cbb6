# ThemePlate Enforcer, modelled in Dafny

ThemePlate's `Enforcer` keeps a registry of WordPress plugins that must stay
active, grouped by environment type ("production", "staging", "local", ...).
The registry is built for the environment the site runs in. It then serves
two WordPress filters:

- `option_active_plugins` appends the plugins forced in the current environment
  to the stored active-plugin list;
- `plugin_action_links` drops the "deactivate" link from the row of a plugin
  forced in the current environment.

The model has four modules:

- `Lists` (lists.dfy): the ordered, duplicate-free plugin lists and the PHP
  array primitives the class applies to them. `IndexOf` is strict
  `array_search`, `RemoveAt` is `unset` at an index and `Insert` is the
  `in_array` guard plus `[] =`. `Without` is a reference definition of
  "every other element, in order".
- `ActionLinks` (actions.dfy): a row's action map as an ordered list of
  (key, link) pairs. `Unset` is `unset($displayed['deactivate'])`.
- `Registry` (registry.dfy): the `storage` field as a value,
  `map<string, seq<string>>`. It gives the invariant `Consistent` (the current
  environment is a key, and no list has a duplicate). It gives the effect of
  `register` and `unregister` as the functions `Registered` and `Unregistered`,
  with lemmas about them.
- `Enforcer` (enforcer.dfy): the class itself. It has an immutable
  `currentEnvironment` and a mutable `storage` field. `Register` and
  `Unregister` update `storage` in place, step by step as the PHP does, and are
  proved to equal `Registered` and `Unregistered`. The two filters are functions
  that read the object. Two client methods, `HideRun` and `UnregisterRun`, show
  what a caller can conclude from these contracts.

`Unregistered` is defined as removing every occurrence of the plugin. The PHP
removes only the first occurrence that `array_search` finds. The two agree on
lists without duplicates, which `Consistent` guarantees. `Enforcer.Unregister`
follows the PHP and proves the agreement (`Lists.RemoveFoundIsWithout`).

`maybe_hide_links` first tests whether the plugin is registered anywhere, and
then whether it is registered in the current environment. The current
environment is always a key, so the first test is implied by the second. The
contract of `MaybeHideLinks` states the result without the first test and is
proved against the two-test body.
The first test, over the merged lists of all environments
(src/Enforcer.php:67-69), is the helper predicate `Registry.RegisteredAnywhere`,
which is used only inside `MaybeHideLinks`.

## Model

| member | source | states |
|---|---|---|
| `Enforcer.Enforcer.constructor` | src/Enforcer.php:18-22 | storage has exactly one key, the given current environment, which maps to an empty list; the invariant holds |
| `Enforcer.Enforcer.Register` | src/Enforcer.php:29-39 | the new storage is `Registered(old storage, env, plugin)` and the invariant (current key present, no duplicates) is kept |
| `Enforcer.Enforcer.Unregister` | src/Enforcer.php:41-55 | the new storage is `Unregistered(old storage, env, plugin)`: removing the position `array_search` finds is the same as removing the plugin; the invariant is kept |
| `Enforcer.Enforcer.MaybeInsertPlugins` | src/Enforcer.php:58-62 | the result is `saved` followed by the current environment's list: `saved` is a prefix; counts add up, with no deduplication; a plugin not forced in the current environment is in the result only if it is in `saved` |
| `Enforcer.Enforcer.MaybeHideLinks` | src/Enforcer.php:65-79 | the deactivate entry is removed exactly when the plugin is in the current environment's list, and the map is returned unchanged otherwise (including for plugins forced only in other environments); other entries are kept; no entry is invented |
| `Registry.Registered` | src/Enforcer.php:29-39 | keys grow by `env` only; other environments are unchanged; the old list is a prefix of the new one, which contains the plugin; a plugin already present means no change; a new plugin is appended at the end |
| `Registry.Unregistered` | src/Enforcer.php:41-55 | the key set is unchanged, so no key is created or removed; other environments are unchanged; the plugin is no longer listed; every other plugin keeps its membership; an absent plugin or unknown environment means no change (order and single removal: `Registry.UnregisterRemovesFoundEntry`) |
| `Registry.UnregisterRemovesFoundEntry` | src/Enforcer.php:47-53 | when strict search finds the plugin at position i, unregistering leaves the list with exactly that entry cut out: earlier entries keep their positions, later ones keep their relative order, and the multiset loses exactly one copy of the plugin |
| `Registry.RegisterKeepsConsistent` | src/Enforcer.php:29-39 | register keeps the current-environment key and duplicate-free lists |
| `Registry.UnregisterKeepsConsistent` | src/Enforcer.php:41-55 | unregister keeps the current-environment key and duplicate-free lists |
| `Registry.RegisterOccursOnce` | src/Enforcer.php:35-37 | after register, the plugin occurs exactly once in the environment's list |
| `Registry.RegisterIdempotent` | src/Enforcer.php:35-37 | registering the same pair twice is the same as registering it once |
| `Registry.UnregisterUndoesRegister` | src/Enforcer.php:29-55 | unregistering a plugin that was just newly registered in a known environment gives back the original storage |
| `Registry.UnregisterUnknownIsNoop` | src/Enforcer.php:43-45 | unregistering from an unknown or empty environment changes nothing and does not create the key |
| `Registry.UnregisterKeepsOrder` | src/Enforcer.php:47-53 | register p1, p2, p3 and then unregister p2 leaves exactly [p1, p3] |
| `Lists.IndexOf` | src/Enforcer.php:47-51 | strict search gives None exactly when the plugin is absent; otherwise it gives the first position that holds it |
| `Lists.RemoveAt` | src/Enforcer.php:53 | unset at a position drops that one element: earlier elements keep their positions, later ones move up by one, and the multiset loses exactly that element |
| `Lists.Insert` | src/Enforcer.php:35-37 | the guarded append is the identity when the plugin is already present, and otherwise is the old list with the plugin appended once at the end |
| `Lists.Without` | src/Enforcer.php:41-55 | reference removal: the plugin is absent afterwards, every other element's membership is unchanged, and an absent plugin leaves the list as it is |
| `Lists.NoDupCountOne` | src/Enforcer.php:35-37 | in a duplicate-free list, each element has multiplicity one, and absent elements zero |
| `Lists.InsertNoDup` | src/Enforcer.php:35-37 | the guarded append keeps a list duplicate-free and leaves the plugin in it exactly once |
| `Lists.WithoutNoDup` | src/Enforcer.php:53 | removal keeps a list duplicate-free |
| `Lists.WithoutInsert` | src/Enforcer.php:35-53 | appending a new plugin and then removing it gives back the original list |
| `Lists.RemoveFoundIsWithout` | src/Enforcer.php:47-53 | on a duplicate-free list, unsetting the position strict search finds equals removing the plugin, with the other elements kept in order |
| `ActionLinks.Unset` | src/Enforcer.php:74 | the key is absent afterwards; every entry with another key is kept; the result holds only entries of the input; a map without the key is returned unchanged |
| `ActionLinks.UnsetRemovesOneEntry` | src/Enforcer.php:74 | with unique keys, unset drops exactly the one entry holding the key and keeps the order of the others |
| `ActionLinks.UnsetUniqueKeys` | src/Enforcer.php:74 | unset keeps the keys of a map unique |

## Left out

- The hook wiring `add_filter(...)` (src/Enforcer.php:24-25) is left out. It
  puts callbacks in WordPress's global filter table; the model calls the two
  filters directly as functions.
- `wp_get_environment_type()` (src/Enforcer.php:20) is a call into WordPress.
  It becomes the constructor parameter.
- The test suite's `init()`, `dump()` and `load()` are not in the class source
  and are not modelled. Reading `storage` plays the part of `dump()`.
- Array-index holes left by `unset` (src/Enforcer.php:53) are not modelled;
  lists are sequences. `array_merge` renumbers indices, and only order and
  membership are ever read, so nothing observable is lost.
- The order of the merged list `array_merge(...array_values($this->storage))`
  (src/Enforcer.php:67) is not modelled. Only membership in it is tested
  (`Registry.RegisteredAnywhere`).
- PHP turns numeric-string array keys ("123") into integers, and action maps may
  carry integer keys. Environment names and action keys are modelled as strings.
- PHP's type errors for non-array or non-string arguments are not modelled; the
  Dafny signatures rule them out.
