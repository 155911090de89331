/**
 The two linked-object cases ('while by linked objects with resolve' and
 'while by linked objects with defer.resolve'): build a singly linked chain of a
 start node plus `count` appended nodes, then walk it with `while (pointer.next)`,
 letting every visited node's listener call the counting closure once.
 */
module LinkedChain {
  import opened Deferred

  /**
   A chain node `{ listener, next }`. Every node of one case carries the same listener
   closure, so the node keeps only its link; the listener is CallResolve or
   CallDeferResolve below.
   */
  class Node {
    var next: Node?

    constructor ()
      ensures next == null
    {
      next := null;
    }
  }

  /**
   `nodes` is the chain reachable from nodes[0], in order: each node's `next` is its
   successor, the last node's `next` is null, and no node occurs twice.
   */
  ghost predicate IsChain(nodes: seq<Node>)
    reads nodes
  {
    |nodes| >= 1 &&
    (forall i :: 0 <= i < |nodes| - 1 ==> nodes[i].next == nodes[i + 1]) &&
    nodes[|nodes| - 1].next == null &&
    (forall i, j :: 0 <= i < j < |nodes| ==> nodes[i] != nodes[j])
  }

  /**
   The construction shared by both cases: `start` with `next: null`, then
   `_.times(count, ...)` appends a fresh node to `last` and makes it the new `last`.
   The result is a chain of exactly count + 1 fresh nodes starting at `start`.
   */
  method BuildChain(count: nat) returns (start: Node, ghost nodes: seq<Node>)
    ensures |nodes| == count + 1 && nodes[0] == start && IsChain(nodes)
    ensures forall i :: 0 <= i < |nodes| ==> fresh(nodes[i])
  {
    start := new Node();
    var last := start;
    nodes := [start];
    for k := 0 to count
      invariant |nodes| == k + 1 && nodes[0] == start && last == nodes[k]
      invariant IsChain(nodes)
      invariant forall i :: 0 <= i < |nodes| ==> fresh(nodes[i])
    {
      var next := new Node();
      last.next := next;
      last := next;
      nodes := nodes + [next];
    }
  }

  /** The listener of the first case, `resolve => resolve()`: one call of the counting closure. */
  method CallResolve(resolve: CompletionCounter)
    requires resolve.Valid()
    modifies resolve, resolve.defer
    ensures resolve.t == old(resolve.t) + 1 && resolve.Valid()
    ensures resolve.defer.resolveCalls ==
            old(resolve.defer.resolveCalls) + (if resolve.t == resolve.count then 1 else 0)
  {
    resolve.Resolve();
  }

  /** The object `d = { resolve }` handed to the listeners of the second case. */
  class Resolver {
    const resolve: CompletionCounter

    constructor (resolve: CompletionCounter)
      ensures this.resolve == resolve
    {
      this.resolve := resolve;
    }
  }

  /** The listener of the second case, `defer => defer.resolve()`: one call of `d.resolve`. */
  method CallDeferResolve(d: Resolver)
    requires d.resolve.Valid()
    modifies d.resolve, d.resolve.defer
    ensures d.resolve.t == old(d.resolve.t) + 1 && d.resolve.Valid()
    ensures d.resolve.defer.resolveCalls ==
            old(d.resolve.defer.resolveCalls) + (if d.resolve.t == d.resolve.count then 1 else 0)
  {
    d.resolve.Resolve();
  }

  /**
   `fn(defer)` of 'while by linked objects with resolve'. The walk stops at the last
   node without calling its listener, so exactly the first `count` nodes of the chain
   are visited, each once, in chain order; the counting closure is called exactly
   `count` times (its counter ends at `count`); `fired[k]` is the handle's resolve count
   right after the (k+1)-th listener call, so the handle is resolved on the `count`-th
   call and not before, once when count >= 1 and never when count == 0.
   */
  method WhileByLinkedObjectsWithResolve(count: nat, defer: Defer)
    returns (ghost chain: seq<Node>, ghost visited: seq<Node>, ghost calls: nat, ghost fired: seq<nat>)
    modifies defer
    ensures |chain| == count + 1 && IsChain(chain)
    ensures visited == chain[..count] && chain[count] !in visited
    ensures calls == count
    ensures |fired| == count
    ensures forall k :: 0 <= k < count ==>
              fired[k] == old(defer.resolveCalls) + (if k == count - 1 then 1 else 0)
    ensures defer.resolveCalls == old(defer.resolveCalls) + ExpectedCompletions(count)
  {
    var start;
    start, chain := BuildChain(count);
    var resolve := new CompletionCounter(count, defer);
    var pointer := start;
    ghost var i := 0;
    visited, fired := [], [];
    while pointer.next != null
      invariant 0 <= i <= count && pointer == chain[i] && visited == chain[..i]
      invariant IsChain(chain) && pointer.next == (if i < count then chain[i + 1] else null)
      invariant resolve.t == i && resolve.count == count && resolve.defer == defer
      invariant resolve.base == old(defer.resolveCalls) && resolve.Valid()
      invariant |fired| == i
      invariant forall k :: 0 <= k < i ==>
                  fired[k] == old(defer.resolveCalls) + (if k == count - 1 then 1 else 0)
      decreases count - i
    {
      CallResolve(resolve);
      CompletionsAfterAtMostOnce(i + 1, count);
      fired := fired + [defer.resolveCalls];
      visited := visited + [pointer];
      pointer := pointer.next;
      i := i + 1;
    }
    calls := resolve.t;
    assert forall j :: 0 <= j < count ==> visited[j] == chain[j] != chain[count];
    CompletionsAfterCount(count);
  }

  /**
   `fn(defer)` of 'while by linked objects with defer.resolve': the same chain and walk,
   with the listeners calling `d.resolve()` on a resolver object instead of a bare
   closure; the outcome (visits, closure calls, the moment and number of completions)
   is the same as WhileByLinkedObjectsWithResolve's.
   */
  method WhileByLinkedObjectsWithDeferResolve(count: nat, defer: Defer)
    returns (ghost chain: seq<Node>, ghost visited: seq<Node>, ghost calls: nat, ghost fired: seq<nat>)
    modifies defer
    ensures |chain| == count + 1 && IsChain(chain)
    ensures visited == chain[..count] && chain[count] !in visited
    ensures calls == count
    ensures |fired| == count
    ensures forall k :: 0 <= k < count ==>
              fired[k] == old(defer.resolveCalls) + (if k == count - 1 then 1 else 0)
    ensures defer.resolveCalls == old(defer.resolveCalls) + ExpectedCompletions(count)
  {
    var start;
    start, chain := BuildChain(count);
    var counter := new CompletionCounter(count, defer);
    var d := new Resolver(counter);
    var pointer := start;
    ghost var i := 0;
    visited, fired := [], [];
    while pointer.next != null
      invariant 0 <= i <= count && pointer == chain[i] && visited == chain[..i]
      invariant IsChain(chain) && pointer.next == (if i < count then chain[i + 1] else null)
      invariant d.resolve == counter && counter.t == i && counter.count == count && counter.defer == defer
      invariant counter.base == old(defer.resolveCalls) && counter.Valid()
      invariant |fired| == i
      invariant forall k :: 0 <= k < i ==>
                  fired[k] == old(defer.resolveCalls) + (if k == count - 1 then 1 else 0)
      decreases count - i
    {
      CallDeferResolve(d);
      CompletionsAfterAtMostOnce(i + 1, count);
      fired := fired + [defer.resolveCalls];
      visited := visited + [pointer];
      pointer := pointer.next;
      i := i + 1;
    }
    calls := counter.t;
    assert forall j :: 0 <= j < count ==> visited[j] == chain[j] != chain[count];
    CompletionsAfterCount(count);
  }
}
