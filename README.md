# context: values and cancellation threaded through a call chain

A Dafny model of the `context` library (src/index.ts). A context is an
immutable chain of key/value bindings that ends in the `background` node.
`withValue` derives a child that binds one more key. `value(key)` walks from
the queried node towards `background`, and the first node whose key matches
wins. Cancellation is built on the same chain. `withAbort` creates a promise
that can only be rejected, binds it under a module-private `abortKey` symbol
and returns the reject function as the abort handle. If the parent chain
already holds an abort promise, the new promise is wired to it with
`prev.catch(abort)`, so cancelling an ancestor cancels every descendant.
`useAbort` returns the nearest bound promise, or a fresh promise that never
settles. `withTimeout` adds a timer that rejects with
`Error("Context timed out")`. Its abort handle clears the timer before it
rejects.

Files:

- `ValueChain.dfy` (module `ValueChain`): the chain as a datatype
  `Ctx<K, V> = Background | Bind(parent, key, val)` with `Lookup` and
  `WithValue`. `Entries` lists the bindings oldest first and gives an
  independent definition of shadowing: a lookup returns the value of the
  deepest binding of the key, and misses when no binding holds the key.
- `Cancellation.dfy` (module `Cancellation`): keys are `User(k) | AbortKey`,
  so no application key can equal `abortKey`. Values are `Data(v) | Signal(cell)`.
  The class `Promises` holds every abort promise, named by its creation
  index. For each promise it stores its write-once settlement `reason`, its
  `dependents` (the promises its `catch` continuations reject) and whether
  its reject function escaped to a caller (`rejectable`). `Reject` settles a
  pending promise and then runs its continuations one by one, recursing down
  the dependents. It is proved against the closed form `Cancelled`: every
  pending promise below the rejected one settles with the same reason, and
  nothing else changes. Lemmas about `Cancelled` state the rules: first
  settlement wins, cancellation never travels upwards, a second abort is a
  no-op, and the store invariant is preserved.
- `Timeout.dfy` (module `Timeout`): the class `Timer` with an `armed` flag.
  `Fire` acts only while the timer is armed. `Abort` disarms the timer and
  then aborts.
- `Scenarios.dfy` (module `Scenarios`): client methods that use only the
  contracts above. They mirror the repository's tests (src/index.spec.ts)
  and the parent/child/grandchild and timeout-race behaviour.

The reject function of a promise is modelled by the promise's index, because
calling the handle is the only way to reject the promise. A promise from
`withAbort` is created after the promise it is wired to, so wiring always
points to a smaller index. That makes the promises a forest, and it is why
the recursive `Reject` terminates.

One behaviour of the source worth knowing: when an ancestor cancels a
`withTimeout` context, its timer stays armed. When it fires later it calls
the abort of a promise that has already settled, which changes nothing
(`Timer.Fire` and `FirstSettlementWins`).

## Model

| member | source | states |
|---|---|---|
| `ValueChain.Lookup` | src/index.ts:8-27 | `value(key)` finds a value exactly when some entry of the chain binds the key (`Keys` is the set of keys of `Entries`), so it is absent exactly when no node binds the key; on `background` nothing is bound, so every lookup is absent |
| `ValueChain.WithValue` | src/index.ts:38-44 | the child answers `v` for its own key and answers every other key as the parent does; it binds the parent's keys plus its own |
| `ValueChain.LookupIsDeepest` | src/index.ts:24-27 | shadowing, both directions: a lookup yields `v` exactly when the deepest binding of the key on the chain holds `v` |
| `ValueChain.ExtendPreserves` | src/index.ts:24-27 | after any sequence of `withValue` derivations that do not bind a key, the descendant answers that key exactly as the ancestor does |
| `ValueChain.ExtendEntries` | src/index.ts:38-44 | deriving with a sequence of bindings appends exactly those bindings, in order, to the chain's entries |
| `ValueChain.EntriesRebuild` | src/index.ts:33-44 | every context is `background` derived by its own entries, so entries and derivation are inverse |
| `Cancellation.NearestIsLive` | src/index.ts:90-92 | the promise `useAbort` finds exists exactly when the chain binds `abortKey`, and it is a promise created by `withAbort` |
| `Cancellation.SettledBelow` | src/index.ts:70 | once a promise has settled, every promise wired below it, directly or through others, has settled |
| `Cancellation.NearestDescends` | src/index.ts:64-72 | in a context derived from `ctx` by any mix of `withValue` and `withAbort`, the nearest abort promise exists and is wired, directly or through others, to the nearest promise of `ctx` |
| `Cancellation.AncestorCancelsContext` | src/index.ts:64-72 | a context is cancelled when any ancestor is: once the nearest promise of `ctx` has settled, so has the nearest promise of every context derived from it |
| `Cancellation.FirstSettlementWins` | src/index.ts:69-70 | rejecting an already settled promise changes no promise's reason |
| `Cancellation.CancelSparesAncestors` | src/index.ts:70 | rejecting a promise never changes the state of a promise it is wired to, directly or transitively |
| `Cancellation.CancelledConsistent` | src/index.ts:70 | after a rejection, every promise wired to a settled promise is settled |
| `Cancellation.CancelIdempotent` | src/index.ts:69-71 | calling an abort handle a second time, with any reason, leaves every reason as the first call left it |
| `Cancellation.WireKeepsSound` | src/index.ts:68-71 | wiring a new promise to the nearest one, and settling it with that promise's reason if it has one, keeps the store invariant |
| `Cancellation.FallbackKeepsSound` | src/index.ts:91 | adding the never-settling fallback promise keeps the store invariant |
| `Cancellation.Promises.WithAbort` | src/index.ts:64-72 | a new promise comes last, wired to the parent's nearest promise and holding its settlement; the child binds it under `abortKey`, `useAbort` on the child finds exactly it, and user lookups are unchanged |
| `Cancellation.Promises.UseAbort` | src/index.ts:90-92 | returns the nearest bound promise and changes nothing; otherwise adds a pending promise whose reject function never escapes, and the store invariant keeps it pending for ever |
| `Cancellation.Promises.Abort` | src/index.ts:69-71 | the abort handle moves the store from `reason` to `Cancelled(parent, reason, cell, r)` and keeps the invariant |
| `Cancellation.Promises.Reject` | src/index.ts:69-70 | rejecting a promise whose reject function escaped settles it and every pending promise below it with the same reason, and leaves every other promise as it was |
| `Timeout.Timer.constructor` | src/index.ts:82 | the timer starts armed on the new promise |
| `Timeout.Timer.Fire` | src/index.ts:82 | an armed timer rejects its promise with `Error("Context timed out")` and is spent; a cleared or spent timer changes nothing |
| `Timeout.Timer.Abort` | src/index.ts:83 | the handle clears the timer, which then cannot fire, and aborts the promise with the caller's reason |
| `Timeout.WithTimeout` | src/index.ts:77-85 | the context and promise of `withAbort`, with an armed timer on that promise |

## Left out

- The millisecond duration and the host's `setTimeout`/`clearTimeout` are not modelled. The timer is only its `armed` flag, and the host decides when `Timer.Fire` runs.
- Promise scheduling is not modelled. In the source, `prev.catch(abort)` rejects the child in a later microtask. The model applies that propagation at once, also when the parent promise has already settled when `withAbort` runs. So a handle called in the same synchronous turn, before the microtask runs, wins in the source but loses to the parent's reason in the model. The order in which waiters resume is not modelled.
- Awaiting a promise, and unhandled-rejection reporting, are host behaviour. The model only records each promise's settlement.
- `undefined` values are not modelled. `Lookup` returns `None` for a miss and `Some(v)` for any stored value. In the source a stored `undefined` cannot be told apart from a miss.
- The TypeScript types (`keyof (T & P)`, `Record<K, V>`, `Partial<AbortContextValue>`) are compile-time only. Application keys and values are the type parameters `K` and `V`.
- An `Error` is modelled by its message. Two errors with the same message are equal in the model, although they are distinct objects in the source.
- Promises are entries of one `Promises` store rather than separate heap objects. A context refers to its promise by index.
- Keys are compared with Dafny's `==`. The source compares with `===`, under which a `NaN` key never equals itself, so a lookup of a `NaN` key always misses in the source. The model does not capture that case.
- `Context<T>` is an exported interface (src/index.ts:1-3), so a caller may pass its own implementation. If such an implementation answers `abortKey` with a truthy value that is not a promise, `prev.catch` throws in `withAbort` (src/index.ts:70) and `useAbort` returns that value (src/index.ts:91). The model has only the `Ctx` datatype, built by `background` and `withValue`, and `Wired` requires every `abortKey` binding to be a promise that `withAbort` created.
- The source has no push-based signal tree with listeners and an `aborted` flag, so none is modelled.
