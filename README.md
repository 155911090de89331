# Completion counting in the list-parallel-execution benchmarks

The repository is a microbenchmark that measures several ways of fanning out `count`
trivial units of work and joining on their completion. Each case gets a deferred
completion handle from the benchmark engine and must call `defer.resolve()` exactly
once, after all `count` units have signalled. This model covers the three hand-written
cases and the suite bookkeeping around them:

- `Deferred` (defer.dfy): the engine's handle (`Defer`, which only records how many
  times it was resolved) and the state of the counting closure `resolve`/`next`
  (`CompletionCounter`: the counter `t`, the target `count` and the handle).
  `CompletionsAfter(k, count)` is the number of completions the first `k` closure calls
  produce. The lemmas prove that this is at most one, and that it is exactly one once
  `k >= count >= 1`.
- `LinkedChain` (linked.dfy): the two linked-object cases, with a `Node` class whose
  `next` field is updated in place. `BuildChain` is the `start` + `_.times` construction.
  The `while (pointer.next)` walks carry the loop invariants that tie the cursor to a
  ghost sequence of the chain's nodes and the counter to the number of nodes visited.
- `ArrayCase` (array_case.dfy): the 'for by array' case, with the task array and the
  counter-guarded `for` loop. The verifier checks every `tasks[i]` access against the
  array's bounds.
- `Suites` (suites.dfy): the `benchmarks` table, `createSuite` as a method that adds to
  a `Suite` object, and `createSuites` as a function over what `createSuite` registers.
- `Scenario` (scenario.dfy): runs of registered cases against a stub handle. It shows
  that every hand-written variant resolves its handle the same number of times: once
  when `count >= 1`.

With `count = 0` the code never calls `defer.resolve()`. The linked chain is a lone
start node, so the loop body never runs. The array loop's guard `t < count` is false at
once. A deferred benchmark of size 0 would therefore never end. The model follows the
code, and `ExpectedCompletions(0) == 0` is proved. The fixed size list never uses 0.

## Model

| member | source | states |
|---|---|---|
| Deferred.Defer.Resolve | index.js:26 | one `defer.resolve()` adds exactly one to the handle's resolve count and changes nothing else |
| Deferred.CompletionCounter.constructor | index.js:23-27 | the closure starts with `t = 0` over the given `count` and handle, with no completions yet |
| Deferred.CompletionCounter.Resolve | index.js:24-27 | each call increments `t` by exactly one and resolves the handle exactly when the new `t` equals `count`; only the counter and the handle change |
| Deferred.CompletionsAfterAtMostOnce | index.js:23-27 | across any number of closure calls, the handle fires at most once; it fires iff `count >= 1` and at least `count` calls were made, so never early |
| Deferred.CompletionsAfterCount | index.js:23-32 | after exactly `count` calls the handle has fired once if `count >= 1`, and not at all if `count = 0`; after `count - 1` calls it has not fired |
| LinkedChain.Node.constructor | index.js:19 | a new node literal has `next: null` |
| LinkedChain.BuildChain | index.js:16-22 | the construction yields a chain of exactly `count + 1` fresh, distinct nodes starting at `start`; each appended node becomes the new `last`, and the final node's `next` is null |
| LinkedChain.CallResolve | index.js:19 | the listener `resolve => resolve()` calls the counting closure exactly once |
| LinkedChain.CallDeferResolve | index.js:43 | the listener `defer => defer.resolve()` calls the object's `resolve` closure exactly once |
| LinkedChain.Resolver.constructor | index.js:48-53 | the object `d` holds the counting closure as its `resolve` member |
| LinkedChain.WhileByLinkedObjectsWithResolve | index.js:15-33 | the walk terminates and visits exactly the first `count` nodes of the chain, in order and each once; the last node is never visited; the counting closure is called exactly `count` times, so `t == count` afterwards; the handle's resolve count after each listener call is unchanged for the first `count - 1` calls and one higher after the `count`-th, so it fires on the `count`-th call and not before, and never if `count = 0` |
| LinkedChain.WhileByLinkedObjectsWithDeferResolve | index.js:39-59 | the same chain, visits, `count` closure calls (`t == count` afterwards) and single completion on the `count`-th listener call as the bare-closure variant, with the listeners calling `d.resolve()` |
| ArrayCase.RunTask | index.js:66 | a task `(next) => next()` calls its continuation exactly once |
| ArrayCase.ForByArray | index.js:65-75 | the counter-guarded loop runs exactly `count` iterations and calls the continuation exactly `count` times (`t == count` afterwards); the handle's resolve count after each task is unchanged for the first `count - 1` tasks and one higher after the `count`-th, and never changes if `count = 0`. That `tasks` has `count` entries and is only read at `i < count` is shown by the array-bounds checks of the body, not by an ensures |
| Suites.AllBenchmarksTable | index.js:12-98 | the `benchmarks` object has five entries, in source key order, under pairwise distinct keys |
| Suites.Registrations | index.js:100-104 | what `createSuite` registers: one entry per key of the table, in key order, each a deferred case of that key's pattern and all for the same `count` |
| Suites.Suite.constructor | index.js:101 | a new suite has no cases |
| Suites.Suite.Add | index.js:102 | `suite.add` appends exactly one registration and changes nothing else |
| Suites.CreateSuite | index.js:100-104 | the `for...in` loop leaves a new suite holding exactly `Registrations(benchmarks, count)` |
| Suites.CreateSuites | index.js:106-116 | seven suites, in the order of the sizes 10, 100, 250, 500, 1000, 5000, 10000; the i-th holds what `createSuite` registers for the i-th size |
| Suites.LabelsNameTheirSizes | index.js:108-114 | every suite's key is the decimal form of the size it was built for, followed by " items" |
| Suites.LabelInjective | index.js:107-115 | two sizes share a label exactly when they are equal |
| Suites.SuiteKeysDistinct | index.js:107-115 | the seven keys of a suite set are pairwise distinct, so the object holds seven suites |
| Suites.RegisteredNamesDistinct | index.js:100-104 | a table with distinct keys gives a suite whose cases have pairwise distinct names |
| Suites.SuitesRegisterEveryKeyInOrder | index.js:100-116 | every suite of a suite set registers the table's keys in key order, so all suites carry the same case names; and every case in a suite uses that suite's size |
| Suites.DefaultSuites | index.js:118 | the repository's suite set has seven suites, each with the five cases in the table's key order |
| Scenario.RunWithStubHandle | index.js:13-78 | running any hand-written case once on a fresh stub handle resolves the handle exactly once when `count >= 1`, and never when `count = 0` |
| Scenario.VariantsAgree | index.js:13-78 | the resolver-object variant, the bare-closure variant and the array variant produce the same number of completions for the same count |
| Scenario.RunRegistrations | index.js:100-104 | running each registered hand-written case on its own stub handle gives each the completion count its own `count` dictates |
| Scenario.RunHandWrittenSuite | index.js:100-104 | in the suite `createSuite(benchmarks, count)` builds for a positive count, the first three cases are the hand-written ones; run on stub handles, each resolves exactly once |

## Left out

- 'async.parallel' (index.js:79-87): its `fn` delegates to the `async` library. That library is not part of this model. The case is still registered by `CreateSuite`.
- 'build-in promise all' (index.js:88-97): its `fn` relies on native promise scheduling, which is asynchronous runtime behaviour. The case is still registered by `CreateSuite`.
- The factory call `benchmarks[t](count)` (index.js:102) has no member of its own: it is the record `Case(p, count, true)`, and what the case does when run is given by Scenario.RunWithStubHandle.
- Scenario.RunWithStubHandle: requires one of the three hand-written patterns, because the other two `fn` bodies are not modelled (see above).
- `launch` (index.js:120-133): sequencing with `async.eachSeries`, console output and the `beautify-benchmark` table. This is I/O and orchestration over third-party libraries.
- The benchmark engine: timing, sampling, cycle statistics and the mechanics of deferred timing. Its suite appears only as the list of cases added to it, and its handle only as a resolve count.
- `_.times` is modelled as a loop of `count` iterations (chain construction) or as an array of `count` identical tasks. lodash itself is not modelled.
- Listener closures are not stored in the nodes. Every node of a case carries the same listener, so the walk calls the one listener method (`CallResolve` or `CallDeferResolve`). The final node's listener exists in the source but is never called.
- The number of closure calls, the visited nodes, the loop rounds and the per-call resolve counts (`fired`) appear only as ghost results. The source returns nothing from `fn`.
- The unused imports (`fs`, `promise`, `bluebird`, `rsvp`, `q`, index.js:1 and 7-10) have no effect.
- Only index.js is modelled. A variant that builds the work sequences once and reuses them across timed invocations is not part of it and is not modelled.
