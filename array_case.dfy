/**
 The 'for by array' case: `count` tasks, each calling its continuation once, driven
 by a loop whose guard reads the completion counter instead of the index.
 */
module ArrayCase {
  import opened Deferred

  /** The task `(next) => next()` that `_.times` produces for every slot. */
  datatype Task = CallNext

  /** Runs one task with its continuation: the task calls `next` exactly once. */
  method RunTask(task: Task, next: CompletionCounter)
    requires next.Valid()
    modifies next, next.defer
    ensures next.t == old(next.t) + 1 && next.Valid()
    ensures next.defer.resolveCalls ==
            old(next.defer.resolveCalls) + (if next.t == next.count then 1 else 0)
  {
    match task
    case CallNext => next.Resolve();
  }

  /**
   `fn(defer)` of 'for by array'. `tasks` has exactly `count` entries; the loop
   `for (i = 0; t < count; i++)` only ever reads `tasks[i]` with `i < count` (the
   array-bounds checks of the body, discharged by the invariant `next.t == i`), because
   every task advances the counter once. It runs exactly `count` iterations and calls
   the continuation exactly `count` times (the counter ends at `count`); `fired[k]` is
   the handle's resolve count right after the (k+1)-th task, so the handle is resolved
   on the `count`-th continuation call and not before, and never when count == 0.
   */
  method ForByArray(count: nat, defer: Defer)
    returns (ghost iterations: nat, ghost calls: nat, ghost fired: seq<nat>)
    modifies defer
    ensures iterations == count && calls == count
    ensures |fired| == count
    ensures forall k :: 0 <= k < count ==>
              fired[k] == old(defer.resolveCalls) + (if k == count - 1 then 1 else 0)
    ensures defer.resolveCalls == old(defer.resolveCalls) + ExpectedCompletions(count)
  {
    var tasks := new Task[count](_ => CallNext);
    var next := new CompletionCounter(count, defer);
    var i := 0;
    fired := [];
    while next.t < count
      invariant i <= count && next.t == i
      invariant next.count == count && next.defer == defer
      invariant next.base == old(defer.resolveCalls) && next.Valid()
      invariant |fired| == i
      invariant forall k :: 0 <= k < i ==>
                  fired[k] == old(defer.resolveCalls) + (if k == count - 1 then 1 else 0)
      decreases count - next.t
    {
      RunTask(tasks[i], next);
      CompletionsAfterAtMostOnce(i + 1, count);
      fired := fired + [defer.resolveCalls];
      i := i + 1;
    }
    iterations, calls := i, next.t;
    CompletionsAfterCount(count);
  }
}
