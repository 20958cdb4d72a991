# hooksi: the `Hooks` registry in Dafny

This project models the `Hooks` class of the hooksi library. The class is a registry from hook name to the ordered list of callbacks registered under that name. `on` pushes a callback onto the list for a name, creating the list if needed. `unsubscribe` finds the first identical callback with `indexOf` and removes it with `splice`. `exec` calls every callback of a name in list order. `execAsync` collects one `Promise.resolve(...)` per callback, in list order. `getHooks` exposes the table.

Layout:

- `array_ops.dfy`, module `ArrayOps`: the two JavaScript array primitives the class uses. `IndexOf` is `Array.prototype.indexOf` (first match, or -1). `Splice` is `splice(i, 1)` seen through the array it leaves behind.
- `hooks.dfy`, module `HookRegistry`: specification functions on the table, the class `Hooks` and the lemmas.
  - The functions are `ListOf`, `Appended`, `Unsubscribed`, `Dispatch` and `Registered`.
  - The class keeps the `_hooks` Map as a field `hooks: map<Name, seq<Cb>>`. Its methods change that field in place, with `modifies this`.
  - `Exec` and `ExecAsync` are indexed `for` loops, as in the source.

Hook names and callbacks are type parameters with equality. Equality on `Cb` stands for JavaScript identity (`===`), which is what `indexOf` compares with. Callbacks are not run. Instead, `Exec` returns the trace of `Invocation(callback, context, args)` it makes, with the context and arguments passed through unchanged. `ExecAsync` returns one `ResolveOf(invocation)` per callback, which means "`Promise.resolve` of what callback i returned".

`SaveAndLoadScenario` is a client of the class. It registers two callbacks under `"save"`, dispatches, unsubscribes the first one and dispatches again. It also dispatches and unsubscribes under `"load"`, which has no callbacks. Its assertions follow from the method contracts alone.

The model follows the code as written:

- `unsubscribe(...)` is declared `: void` and returns nothing (src/index.ts:25).
- A list emptied by `unsubscribe` stays in the table as `[]`: the key is never removed (the TODO at src/index.ts:33).
- The class has exactly `on`, `unsubscribe`, `exec`, `execAsync` and `getHooks` (src/index.ts:11-72).
- Nothing catches a synchronous throw of a callback around `Promise.resolve(...)` in `execAsync` (src/index.ts:62), so such a throw leaves the loop instead of becoming a rejected promise.

## Model

| member | source | states |
|---|---|---|
| `HookRegistry.Hooks.constructor` | src/index.ts:7-9 | a new registry has an empty table with no keys |
| `HookRegistry.Appended` | src/index.ts:15-19 | after `on(name, cb)` the keys are the old keys plus `name`; the list for `name` is the old list (or `[]` if absent) with `cb` appended; every other key keeps its list |
| `HookRegistry.Hooks.On` | src/index.ts:11-20 | the new table is `Appended` of the old one, so `name` is always present and its list ends in `cb` |
| `HookRegistry.OnTwiceDuplicates` | src/index.ts:15-19 | duplicates are kept: `on(name, cb)` twice adds `cb` twice at the end, and its count in the list rises by two |
| `ArrayOps.IndexOf` | src/index.ts:29 | `indexOf` returns -1 exactly when the value is absent; otherwise it returns an index holding the value with no earlier occurrence |
| `ArrayOps.IndexOfAppended` | src/index.ts:29 | after pushing `x`, `indexOf(x)` finds the new last entry when `x` was absent, and the old first occurrence otherwise |
| `ArrayOps.Splice` | src/index.ts:32 | `splice(i, 1)` shortens the list by one; entries before `i` stay in place and entries after `i` move down by one |
| `ArrayOps.SpliceMultiset` | src/index.ts:32 | `splice(i, 1)` removes one copy of the element at `i` and keeps every other element |
| `ArrayOps.SpliceInverse` | src/index.ts:32 | putting the removed element back at `i` gives the original list |
| `HookRegistry.Unsubscribed` | src/index.ts:26-35 | `unsubscribe` never changes the set of keys, and every key other than `name` keeps its list |
| `HookRegistry.Hooks.Unsubscribe` | src/index.ts:22-36 | the new table is `Unsubscribed` of the old one; nothing is returned |
| `HookRegistry.UnsubscribeRemovesFirst` | src/index.ts:26-32 | when `cb` is in the list, exactly the entry at its first occurrence is removed; the others keep their relative order; the length drops by one and one copy of `cb` is gone |
| `HookRegistry.UnsubscribeNoOpIff` | src/index.ts:28-31 | the table is unchanged if and only if `cb` is not in the list for `name` (`name` absent, its list empty, or `cb` missing) |
| `HookRegistry.UnsubscribeKeepsEmptyKey` | src/index.ts:32-33 | removing the only callback of `name` leaves `name` in the table with an empty list |
| `HookRegistry.OnThenUnsubscribe` | src/index.ts:15-32 | round trip: if `cb` is not yet in the list, `on` then `unsubscribe` restores the list; the table is restored when `name` was present, and otherwise gains `name` with `[]` |
| `HookRegistry.UnsubscribeAfterDuplicateOn` | src/index.ts:15-32 | if `cb` is already registered, `on` then `unsubscribe` removes the earlier entry and keeps the newly pushed one at the end |
| `HookRegistry.Dispatch` | src/index.ts:45-48 | a dispatch over a list makes one invocation per entry; the i-th invocation calls the i-th callback with the given context and arguments |
| `HookRegistry.DispatchAppend` | src/index.ts:46-47 | dispatching over `a + b` is dispatching over `a` and then over `b` |
| `HookRegistry.Hooks.Exec` | src/index.ts:38-50 | `exec` invokes each callback of the list for `name` exactly once, in index order, with the same context and arguments; it invokes nothing when `name` is absent |
| `HookRegistry.Hooks.ExecAsync` | src/index.ts:52-68 | `execAsync` returns as many promises as `name` has callbacks (none when absent); the i-th wraps the result of invoking the i-th callback |
| `HookRegistry.RegistrationOrder` | src/index.ts:15-19 | `on(name, cbs[0])`, `on(name, cbs[1])`, ... appends `cbs` in order to the list for `name`; the keys gain `name` once at least one callback is registered and no other key; every other key keeps its list |
| `HookRegistry.DispatchFollowsRegistration` | src/index.ts:15-48 | on a fresh registry, dispatch after registering `cbs` one by one invokes exactly `cbs`, in registration order |
| `HookRegistry.Hooks.GetHooks` | src/index.ts:70-72 | `getHooks` returns the table as it stands, without changing the registry |

## Left out

- Promises and asynchrony: what `Promise.resolve` does with a returned value or thenable, and when anything settles. Each element of `ExecAsync`'s result is only "the promise of callback i's result".
- Running callbacks: callbacks are opaque identities. What they compute, their return values and their exceptions are not modelled. A throwing callback would stop `exec` and `execAsync` partway through. The model assumes no callback throws.
- Re-entrant callbacks: the model assumes callbacks do not change the registry. The source re-reads `hookCallbacks.length` on every iteration (src/index.ts:46, 60), so a re-entrant callback would see a live view of the list.
- `this` binding and spread arguments (`.call(_this, ...args)`): the context and the argument list are opaque values that are passed through unchanged.
- The compile-time mapping from hook names to callback signatures (`HooksDefinition`, `Parameters<...>`): callbacks are a single opaque type, and names are not restricted to a declared set.
- `HookRegistry.Hooks.GetHooks`: returns the table as a value. The source returns the live `Map` object, through which callers could change the registry; that aliasing is not modelled.
- JavaScript `Map` iteration order over keys is not modelled. The table is a Dafny `map`, whose keys have no order.
