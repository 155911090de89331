/**
 Running registered cases against a stub completion handle that only records how often
 it was resolved, as one timed invocation of each case would.
 */
module Scenario {
  import opened Deferred
  import LinkedChain
  import ArrayCase
  import opened Suites

  /** The three hand-written patterns, whose `fn` bodies this model gives. */
  predicate HandWritten(p: Pattern)
  {
    p == WhileByLinkedObjectsWithResolve || p == WhileByLinkedObjectsWithDeferResolve || p == ForByArray
  }

  /**
   One invocation of a case's `fn` on a fresh stub handle. Whatever the pattern, the
   handle is resolved exactly once when the case has work (count >= 1) and never when
   it has none.
   */
  method RunWithStubHandle(c: Case) returns (resolveCalls: nat)
    requires HandWritten(c.pattern)
    ensures resolveCalls == ExpectedCompletions(c.count)
  {
    var defer := new Defer();
    match c.pattern {
      case WhileByLinkedObjectsWithResolve =>
        ghost var chain, visited, calls, fired := LinkedChain.WhileByLinkedObjectsWithResolve(c.count, defer);
      case WhileByLinkedObjectsWithDeferResolve =>
        ghost var chain, visited, calls, fired := LinkedChain.WhileByLinkedObjectsWithDeferResolve(c.count, defer);
      case ForByArray =>
        ghost var iterations, calls, fired := ArrayCase.ForByArray(c.count, defer);
    }
    resolveCalls := defer.resolveCalls;
  }

  /**
   The two linked-object variants and the array variant, run for the same count, agree:
   each resolves its handle the same number of times, once when count >= 1.
   */
  method VariantsAgree(count: nat) returns (withResolve: nat, withDeferResolve: nat, byArray: nat)
    ensures withResolve == withDeferResolve == byArray
    ensures withResolve == if count >= 1 then 1 else 0
  {
    withResolve := RunWithStubHandle(Case(WhileByLinkedObjectsWithResolve, count, true));
    withDeferResolve := RunWithStubHandle(Case(WhileByLinkedObjectsWithDeferResolve, count, true));
    byArray := RunWithStubHandle(Case(ForByArray, count, true));
  }

  /**
   Runs every registered case once, each on its own stub handle, in registration order.
   Each handle is resolved exactly as ExpectedCompletions says for that case's count.
   */
  method RunRegistrations(rs: seq<Registration>) returns (resolveCalls: seq<nat>)
    requires forall i :: 0 <= i < |rs| ==> HandWritten(rs[i].benchmark.pattern)
    ensures |resolveCalls| == |rs|
    ensures forall i :: 0 <= i < |rs| ==> resolveCalls[i] == ExpectedCompletions(rs[i].benchmark.count)
  {
    resolveCalls := [];
    for k := 0 to |rs|
      invariant |resolveCalls| == k
      invariant forall i :: 0 <= i < k ==> resolveCalls[i] == ExpectedCompletions(rs[i].benchmark.count)
    {
      var calls := RunWithStubHandle(rs[k].benchmark);
      resolveCalls := resolveCalls + [calls];
    }
  }

  /**
   The suite the program creates for a positive count: its first three cases are the
   hand-written ones, and running each on a stub handle records exactly one completion.
   */
  method RunHandWrittenSuite(count: nat) returns (resolveCalls: seq<nat>)
    requires count >= 1
    ensures |resolveCalls| == 3
    ensures forall i :: 0 <= i < |resolveCalls| ==> resolveCalls[i] == 1
  {
    var suite := CreateSuite(AllBenchmarks, count);
    AllBenchmarksTable();
    resolveCalls := RunRegistrations(suite.registrations[..3]);
  }
}
