# aprjs event registry, modelled in Dafny

aprjs is an in-process event registry. Listeners register against an event name with
`on`. Interceptors ("arounds") register with `around`, either against one event (optionally
against a named target inside it) or globally with `'*'`. `emit` starts every listener of
an event, each wrapped by a forest of arounds. A listener caches its forest until something
invalidates it.

This project models the state the registry keeps and the rule that decides which arounds
wrap which listener:

- `around.dfy` (module `Arounds`) holds the immutable around record, names, and the matching rule.
- `resolver.dfy` (module `Resolver`) holds the dependency resolver as a pure function, with its properties.
- `listener.dfy` (module `Listeners`) holds the listener class: its cache and the imperative resolver loop.
- `event.dfy` (module `Events`) holds the event bucket class.
- `registry.dfy` (module `Registry`) holds the registry class, the parsing of `around`'s first argument, and scenarios.
- `strings.dfy` and `optional.dfy` are support modules: JavaScript `split` and an option type.

Function bodies are opaque ids (`BodyId`). A name is `Named(s)` for a function with a
non-empty `name`. Otherwise it is `Anon(token)`: a fresh token drawn from the registry's
counter `nextAnon`, standing for `Symbol('Anonymous')`. A `null` cache is `None`. An
empty forest is truthy in JavaScript, so a cached `[]` is `Some([])` and is reused.

The resolver walks the pool with an index. It splices out each around whose `depend` is
the target or `'*'`, and recurses on that around's name over the same shrinking array.
`Resolver.Collect(target, pool, i)` is that walk from index `i`. It returns the forest and
the pool as the walk leaves it. `Listeners.Listener.GetCurrentArounds` is the loop itself,
proved equal to `Collect`.

Registry invariants:
- `Apr.Valid`: each event is keyed by its own name, and no listener is held twice or by two events.
- `Apr.CachesFresh`: every cached forest equals what resolution over the event's arounds followed by the global arounds gives now.

The model follows the code in two places where it evidently departs from what was meant
(see Findings):
- The comment at src/core/index.js:28 says every event goes through a global around, but a
  cache is not always invalidated when a global around is added.
- The resolver does not always collect every around that matches. Nothing in the repository
  documents that the walk is complete, but it is evidently intended.

## Model

| member | source | states |
|---|---|---|
| Strings.Split | src/core/index.js:32 | JavaScript `split(sep)`: always at least one part; its meaning is stated by `SplitSingle`, `SplitFirst`, `SplitPartsClean` and `SplitJoin` |
| Strings.SplitSingle | src/core/index.js:32 | a spec without `':'` splits into itself alone; one with `':'` splits into at least two parts |
| Strings.SplitFirst | src/core/index.js:32 | a `':'`-free head followed by `':'` becomes the first part, and the rest splits on its own |
| Strings.SplitPartsClean | src/core/index.js:32 | no part of a split contains the separator |
| Strings.SplitJoin | src/core/index.js:32 | joining the parts with the separator gives back the input, so the split loses nothing |
| Registry.ParseSpec | src/core/index.js:28-32 | global exactly for `'*'`; otherwise the event and the `depend` are `':'`-free segments, and `depend` is absent exactly when the spec holds no `':'`; `ParseEventOnly` and `ParseEventTarget` give the result for each shape |
| Registry.ParseEventOnly | src/core/index.js:32-34 | `around('e', fn)` is local to `e` with no `depend`, so the default `'*'` applies |
| Registry.ParseEventTarget | src/core/index.js:32-34 | `around('e:t', fn)` and `around('e:t:more', fn)` are local to `e` and wrap `t`; later segments are ignored |
| Arounds.NameOf | src/core/entity/around.js:5 | the name is the function's own name when it is non-empty; otherwise it is the anonymous token, and anonymous exactly when the name is empty |
| Arounds.NewAround | src/core/entity/around.js:4-9 | the body is stored and the name rule applies; a given `depend` is stored as is; a missing one matches every target |
| Arounds.Matches | src/core/entity/listener.js:16 | an around wraps a target when its `depend` is the target's name or `'*'`; its meaning is stated by `AnonymousWrappedOnlyByWildcards` and `NewAround` (a missing `depend` matches every target) |
| Arounds.AnonymousWrappedOnlyByWildcards | src/core/entity/listener.js:16 | an around wraps an anonymous name exactly when its `depend` is `'*'` |
| Resolver.Collect | src/core/entity/listener.js:12-28 | the pool the walk leaves is never longer than the pool it was given |
| Resolver.Resolve | src/core/entity/listener.js:35 | `getCurrentArounds(this.name, arounds)`: the walk from index 0; its meaning is stated by `ResolveSize`, `ResolveNoReuse`, `ResolveDistinct`, `ResolveMatches`, `ResolveKeepsOrder` and `ResolveTopsInOrder` |
| Resolver.CollectConserves | src/core/entity/listener.js:14-24 | the arounds placed in the forest plus those left over are exactly the pool (as multisets) |
| Resolver.ResolveSize | src/core/entity/listener.js:17-24 | pool size before = forest nodes + pool size after |
| Resolver.ResolveNoReuse | src/core/entity/listener.js:17-19 | no around is placed more often than it occurs in the pool |
| Resolver.ResolveDistinct | src/core/entity/listener.js:17-19 | a pool without repeats gives a forest in which no around appears twice |
| Resolver.CollectMatches | src/core/entity/listener.js:16-19 | from any start index, every top-level around matches the target and every child matches its parent's name |
| Resolver.ResolveMatches | src/core/entity/listener.js:16-19 | every top-level `depend` is the target or `'*'`; every child's `depend` is its parent's name or `'*'` |
| Resolver.CollectKeepsOrder | src/core/entity/listener.js:17 | the pool left over is a subsequence of the pool given, from any start index |
| Resolver.ResolveKeepsOrder | src/core/entity/listener.js:17 | arounds left in the pool keep their relative order |
| Resolver.CollectTopsInOrder | src/core/entity/listener.js:13-24 | from index `i`, top-level arounds are met in pool order among `pool[i..]`; past the end, the forest is empty |
| Resolver.ResolveTopsInOrder | src/core/entity/listener.js:13-24 | top-level arounds appear in pool order; an empty pool gives an empty forest |
| Resolver.SkipsCandidate | src/core/entity/listener.js:17-19 | as written: with target `L` and pool `x→a, a→L, y→L`, `y` matches `L` but is left in the pool |
| Resolver.CollectAll | src/core/entity/listener.js:14-26 | corrected walk, restarting at index 0 after each match: the pool it leaves is never longer than the pool given |
| Resolver.ResolveAll | src/core/entity/listener.js:12-28 | corrected walk from index 0; its meaning is stated by `ResolveAllComplete`, `ResolveAllConserves` and `ResolveAllMatches` |
| Resolver.CollectAllComplete | src/core/entity/listener.js:14-19 | corrected walk: when nothing before `i` matches, nothing left over matches the target |
| Resolver.ResolveAllComplete | src/core/entity/listener.js:14-19 | corrected walk: no around that wraps the target is left in the pool |
| Resolver.CollectAllConserves | src/core/entity/listener.js:14-24 | corrected walk: forest plus leftover is exactly the pool |
| Resolver.ResolveAllConserves | src/core/entity/listener.js:14-24 | corrected walk: forest plus leftover is exactly the pool, so no around is placed twice |
| Resolver.CollectAllMatches | src/core/entity/listener.js:16-19 | corrected walk: match conditions hold at every level from any start index |
| Resolver.ResolveAllMatches | src/core/entity/listener.js:16-19 | corrected walk: every placed around wraps the target or its parent |
| Resolver.GlobalNestsUnderLocal | src/core/entity/listener.js:16-19 | a wildcard also matches a placed around's name, so with listener `saveA`, a local around for `saveA` followed by a global one gives one top-level around with the global one as its child (the pool of tests/core/around.spec.js:148-169) |
| Resolver.ResolveAllKeepsCandidate | src/core/entity/listener.js:14-26 | corrected walk on the example pool places `a` (with child `x`) and then `y`, leaving nothing |
| Listeners.Listener.constructor | src/core/entity/listener.js:2-6 | the name follows the name rule, the body is stored, and the cache is null |
| Listeners.Listener.DiscardCache | src/core/entity/listener.js:8-10 | the cache becomes null; only this listener changes, and its name and body are constant |
| Listeners.Listener.GetCurrentArounds | src/core/entity/listener.js:12-28 | the loop returns exactly `Resolve(depend, arounds)`: the forest, and the spliced pool it leaves |
| Listeners.Listener.CurrentArounds | src/core/entity/listener.js:32-35 | a held cache is returned unchanged; a null cache is filled with the forest resolved from a copy of the pool; afterwards the cache holds the result |
| Events.Event.constructor | src/core/event.js:5-9 | a new event has its name, no listeners and no arounds |
| Events.Event.Listener | src/core/event.js:11-13 | appends exactly one fresh listener at the end, with the name rule, its body and a null cache; arounds are unchanged and fresh caches stay fresh |
| Events.Event.Around | src/core/event.js:15-18 | appends one around with the given `depend`; the listeners are the same and every cache is null |
| Events.Event.DiscardCache | src/core/event.js:20-22 | every listener's cache is null; the listener list and the arounds are unchanged |
| Events.Event.Execute | src/core/event.js:24-26 | starts each listener once, in order; with `needRefreshCache`, or with a null cache, its forest is resolved over local arounds followed by global arounds; otherwise the cached forest is reused; arounds are unchanged |
| Registry.Apr.constructor | src/core/index.js:7-12 | no events, no global arounds, flag down; the invariants hold |
| Registry.Apr.GetEvent | src/core/index.js:38-43 | returns the existing event; or, with `ensure`, inserts a fresh empty event under `name`; without `ensure`, nothing changes |
| Registry.Apr.On | src/core/index.js:14-21 | one new listener at the end of event `name`, created if absent; globals, the flag and other events are untouched; fresh caches stay fresh |
| Registry.Apr.AddListener | src/core/index.js:19-20 | `event.listener` on an existing event keeps the registry invariants |
| Registry.Apr.Around | src/core/index.js:23-36 | `'*'`: one global around with `depend` `'*'`; the flag goes up and nothing else changes, with no event created and no cache touched. Otherwise: a local around on the parsed event (the same event object when it existed), whose caches are nulled; the flag and other events are untouched |
| Registry.Apr.AroundLocal | src/core/index.js:32-34 | `getEvent(name, true).around(...)`: the event exists afterwards (the same object when it existed), holds one more around, and all its caches are null |
| Registry.Apr.AddLocalAround | src/core/index.js:33-34 | `event.around` on an existing event: other events and their listeners are unchanged; fresh caches stay fresh |
| Registry.Apr.AroundCorrected | src/core/index.js:28-30 | corrected global case: the global around is appended, the flag goes up, and every cache of every event is nulled, so caches stay fresh after any `around` |
| Registry.Apr.DiscardAllCaches | src/core/index.js:28-30 | corrected global case: `discardCache()` on every event, so every listener of every event has a null cache; the lists are unchanged |
| Registry.Apr.Emit | src/core/index.js:45-61 | an unknown name is rejected and creates no event; a known one starts its listeners with the flag as `needRefreshCache`; the flag is cleared either way; other events' listeners are untouched; with fresh caches, every listener gets the forest resolution gives now |
| Registry.Apr.EmitKnown | src/core/index.js:49-58 | `emit` of an existing event: the listeners are started and the flag cleared; other events are untouched |
| Registry.Apr.Reset | src/core/index.js:63-68 | no events, no global arounds, flag down (the constructor state); the invariants hold |
| Registry.GuardAlone | src/core/entity/listener.js:16-19 | a wildcard around alone in the pool wraps any target, with no children |
| Registry.DoneEmitted | src/core/index.js:45-61 | `on('done')` then `emit('done')`: the empty forest is cached |
| Registry.GuardAddedAsWritten | src/core/index.js:28-30 | as written: after `around('*', guard)` and a rejected `emit`, the flag is down and `done` still caches the empty forest |
| Registry.GuardAddedCorrected | src/core/index.js:28-30 | corrected: after the same steps, `done` caches nothing |
| Registry.StaleGlobalAround | src/core/index.js:57-58 | as written: the last `emit('done')` wraps the listener in nothing, while resolution now gives `guard` |
| Registry.FreshGlobalAround | src/core/index.js:57-58 | corrected: the last `emit('done')` wraps the listener in `guard` |
| Registry.OneEventOneGlobal | tests/core/init.spec.js:12-18 | `on('save')` then `around('*')`: one event, one global around |
| Registry.BothListenersRun | tests/core/event.spec.js:12-23 | two listeners on one event both start, in registration order |

## Left out

- `Around.createCallFn` and the execution half of `Listener.createCallFn` (src/core/entity/around.js:11-30, src/core/entity/listener.js:37-45) are left out. They are the promise-based "onion" that runs the arounds and their `next()` continuations. Their order depends on the scheduler, so `Events.Event.Execute` returns one `Call` (body and forest) per listener instead of running it.
- `emit`'s promise, its `Context`, and its resolve and reject values are left out. `Registry.Apr.Emit` returns `UnknownEvent` or the started calls. For an unknown name, the source rejects and then throws a `TypeError`, which is caught, and its `finally` still clears the flag. The model keeps exactly that state effect.
- Registry.Apr.Emit clears `hasAppendAround` at the end of the call. In the source, the `finally` runs once `Promise.all` over the listeners settles: either every listener has fulfilled, or the first one has rejected while the others may still be running. It never runs if a listener hangs, for example behind an around that never calls `next`. So an `emit` started before an earlier one settles can still see the flag up, and a hung `emit` never clears it. Interleaved and hung emits are not modelled.
- `middlewares`, `conf`, the `isFunction` argument shuffling and `env.inBrowser` are left out. They are never read by the modelled code. A function is given as its `name` and an opaque body id.
- Arounds.NameOf: `Symbol('Anonymous')` is a fresh token from the counter `nextAnon`. Every registration consumes exactly one token (`nextAnon` grows by one). No other operation changes the counter, and `Reset` does not rewind it. The model does not carry the invariant that every token in use is below the counter.
- Listeners.Listener.GetCurrentArounds works on the pool as a value. It takes the pool in and hands back the spliced pool, instead of splicing one shared array in place. Its only caller passes a private copy (src/core/entity/listener.js:34), so no other code can observe the array.
- The ghost field `Listener.event` and the ghost set `Apr.Repr` are proof devices. They record which event a listener was registered on and which objects the registry owns. They have no counterpart in the source.
- Registry.Apr.Around: in the global case the contract does not promise that caches stay fresh, because the source does not keep them fresh (see Findings).
- The demo in `index.js` and the build configuration are not part of this model.

## Findings

| source | as written | input that shows it | evidently intended | confidence | as-written member | corrected member |
|---|---|---|---|---|---|---|
| src/core/index.js:28-30 | A global around only raises one registry-wide flag. The next `emit` of any event clears it (src/core/index.js:57-58), even a rejected one, and only the emitted event refreshes its caches. | `on('done', logDone)`, `emit('done')`, `around('*', guard)`, `emit('none')`, `emit('done')`: `logDone` runs wrapped by nothing | from then on, every listener of every event is wrapped by `guard`, as the comment at src/core/index.js:28 says | not executed | Registry.StaleGlobalAround | Registry.Apr.AroundCorrected |
| src/core/entity/listener.js:17-19 | The recursive call splices the matched around's dependants out of the shared array. Some of them sit before index `i`, but the index is moved back only once, so the loop steps over the next candidate. | target `L`, pool `x` (depend `a`), `a` (depend `L`), `y` (depend `L`): `y` is left in the pool | evidently intended (nothing in the repository documents it): every around whose `depend` is the target or `'*'` wraps it | not executed | Resolver.SkipsCandidate | Resolver.ResolveAllComplete |

The corrected walk `Resolver.ResolveAll` restarts the scan after each match. Only
non-matching arounds stand before the current index, so restarting skips nothing. The
listener model itself keeps the source's walk. The corrected `around` is used by the
scenario `Registry.FreshGlobalAround`.
