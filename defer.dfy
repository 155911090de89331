/**
 The completion side of every hand-written benchmark case: the deferred handle the
 benchmark engine passes to a case's `fn`, and the counting closure (`resolve`, or
 `next` in the array case) that each unit of work calls once.
 */
module Deferred {

  /** The deferred handle of a timed invocation. Only the number of `resolve()` calls is observable. */
  class Defer {
    var resolveCalls: nat

    constructor ()
      ensures resolveCalls == 0
    {
      resolveCalls := 0;
    }

    /** `defer.resolve()`: ends the timed interval; the model records that it happened. */
    method Resolve()
      modifies this
      ensures resolveCalls == old(resolveCalls) + 1
    {
      resolveCalls := resolveCalls + 1;
    }
  }

  /**
   The number of `defer.resolve()` calls made by the first `calls` calls of a counting
   closure whose counter starts at 0: the k-th call leaves the counter at k and resolves
   exactly when k equals `count`.
   */
  function CompletionsAfter(calls: nat, count: nat): nat
  {
    if calls == 0 then 0
    else CompletionsAfter(calls - 1, count) + (if calls == count then 1 else 0)
  }

  /** The expected effect of one whole timed invocation: one completion, unless there is no work at all. */
  function ExpectedCompletions(count: nat): nat
  {
    if count >= 1 then 1 else 0
  }

  /**
   The handle fires at most once whatever the number of calls, never before the
   `count`-th call, and from the `count`-th call on it has fired once (when count >= 1).
   */
  lemma {:induction false} CompletionsAfterAtMostOnce(calls: nat, count: nat)
    ensures CompletionsAfter(calls, count) == if 1 <= count <= calls then 1 else 0
  {
    if calls > 0 {
      CompletionsAfterAtMostOnce(calls - 1, count);
    }
  }

  /** After exactly `count` calls the handle has fired exactly the expected number of times. */
  lemma CompletionsAfterCount(count: nat)
    ensures CompletionsAfter(count, count) == ExpectedCompletions(count)
    ensures count >= 1 ==> CompletionsAfter(count - 1, count) == 0
  {
    CompletionsAfterAtMostOnce(count, count);
    if count >= 1 {
      CompletionsAfterAtMostOnce(count - 1, count);
    }
  }

  /**
   The state the counting closure closes over: the counter `t`, the target `count`
   and the engine's handle `defer`. `base` is the handle's resolve count when the
   counter was created, so that Valid() can relate the two.
   */
  class CompletionCounter {
    var t: nat
    const count: nat
    const defer: Defer
    ghost const base: nat

    /** The handle has been resolved exactly as often as the calls so far dictate. */
    ghost predicate Valid()
      reads this, defer
    {
      defer.resolveCalls == base + CompletionsAfter(t, count)
    }

    /** `let t = 0;` together with the closure over `count` and `defer`. */
    constructor (count: nat, defer: Defer)
      ensures this.count == count && this.defer == defer && t == 0
      ensures base == defer.resolveCalls && Valid()
    {
      this.count := count;
      this.defer := defer;
      this.base := defer.resolveCalls;
      t := 0;
    }

    /** One call of the closure: `t++; if (t === count) defer.resolve();`. */
    method Resolve()
      requires Valid()
      modifies this, defer
      ensures t == old(t) + 1
      ensures defer.resolveCalls == old(defer.resolveCalls) + (if t == count then 1 else 0)
      ensures Valid()
    {
      t := t + 1;
      if t == count {
        defer.Resolve();
      }
    }
  }
}
