/**
 Suite bookkeeping: the `benchmarks` table of pattern factories, `createSuite`, which
 registers one case per pattern for one size, and `createSuites`, which builds one
 suite per benchmarked size. The benchmark engine's suite is abstracted as the list of
 its registrations.
 */
module Suites {

  /** The five scheduling patterns of the `benchmarks` table. */
  datatype Pattern =
    | WhileByLinkedObjectsWithResolve
    | WhileByLinkedObjectsWithDeferResolve
    | ForByArray
    | AsyncParallel
    | BuildInPromiseAll

  /**
   What a factory returns for a count: `{ fn, defer: true }`, `fn` being the pattern's
   body for that count. The factory call `benchmarks[t](count)` is `Case(p, count, true)`.
   */
  datatype Case = Case(pattern: Pattern, count: nat, deferred: bool)

  /** One `suite.add(name, case)`. */
  datatype Registration = Registration(name: string, benchmark: Case)

  /** A table of factories, as the entries of the `benchmarks` object in key order. */
  type Benchmarks = seq<(string, Pattern)>

  /** The repository's `benchmarks` object. */
  const AllBenchmarks: Benchmarks := [
    ("while by linked objects with resolve", WhileByLinkedObjectsWithResolve),
    ("while by linked objects with defer.resolve", WhileByLinkedObjectsWithDeferResolve),
    ("for by array", ForByArray),
    ("async.parallel", AsyncParallel),
    ("build-in promise all", BuildInPromiseAll)
  ]

  /** The keys of a table are pairwise distinct, as the keys of an object are. */
  predicate DistinctKeys(b: Benchmarks)
  {
    forall i, j :: 0 <= i < j < |b| ==> b[i].0 != b[j].0
  }

  /** The repository's table: five entries, in the source's key order, under five distinct keys. */
  lemma AllBenchmarksTable()
    ensures |AllBenchmarks| == 5 && DistinctKeys(AllBenchmarks)
    ensures AllBenchmarks[2] == ("for by array", ForByArray)
  {
    assert |AllBenchmarks[0].0| == 36 && |AllBenchmarks[1].0| == 42 && |AllBenchmarks[2].0| == 12;
    assert |AllBenchmarks[3].0| == 14 && |AllBenchmarks[4].0| == 20;
  }

  /** The keys of a table, in order. */
  function Names(b: Benchmarks): seq<string>
  {
    seq(|b|, i requires 0 <= i < |b| => b[i].0)
  }

  /** The names under which a list of registrations was added, in order. */
  function RegisteredNames(rs: seq<Registration>): seq<string>
  {
    seq(|rs|, i requires 0 <= i < |rs| => rs[i].name)
  }

  /**
   What `createSuite(b, count)` registers: for each key of `b`, in key order, one
   deferred case of that key's pattern, every one of them for the same `count`.
   */
  function Registrations(b: Benchmarks, count: nat): (rs: seq<Registration>)
    ensures |rs| == |b|
    ensures forall i :: 0 <= i < |rs| ==>
              rs[i].name == b[i].0 && rs[i].benchmark.pattern == b[i].1 &&
              rs[i].benchmark.count == count && rs[i].benchmark.deferred
  {
    if b == [] then []
    else Registrations(b[..|b| - 1], count) + [Registration(b[|b| - 1].0, Case(b[|b| - 1].1, count, true))]
  }

  /** A benchmark engine suite, seen through the cases added to it. */
  class Suite {
    var registrations: seq<Registration>

    /** `new Benchmark.Suite()`: no cases yet. */
    constructor ()
      ensures registrations == []
    {
      registrations := [];
    }

    /** `suite.add(name, case)`: appends one case and changes nothing else. */
    method Add(name: string, c: Case)
      modifies this
      ensures registrations == old(registrations) + [Registration(name, c)]
    {
      registrations := registrations + [Registration(name, c)];
    }
  }

  /** `createSuite(benchmarks, count)`: a new suite holding exactly Registrations(benchmarks, count). */
  method CreateSuite(benchmarks: Benchmarks, count: nat) returns (suite: Suite)
    ensures fresh(suite)
    ensures suite.registrations == Registrations(benchmarks, count)
  {
    suite := new Suite();
    for k := 0 to |benchmarks|
      invariant suite.registrations == Registrations(benchmarks[..k], count)
    {
      var (name, pattern) := benchmarks[k];
      suite.Add(name, Case(pattern, count, true));
      assert benchmarks[..k + 1][..k] == benchmarks[..k];
    }
    assert benchmarks[..|benchmarks|] == benchmarks;
  }

  /** The benchmarked sizes, in the order of the suite set. */
  const SuiteSizes: seq<nat> := [10, 100, 250, 500, 1000, 5000, 10000]

  /** The decimal digits of `n`, most significant first. */
  function DecimalString(n: nat): string
  {
    if n < 10 then [(n + '0' as int) as char]
    else DecimalString(n / 10) + [((n % 10) + '0' as int) as char]
  }

  /** The key a suite of `size` cases is stored under, as in "250 items". */
  function Label(size: nat): string
  {
    DecimalString(size) + " items"
  }

  /**
   `createSuites(benchmarks)`: one suite per benchmarked size, in size order, each
   stored under the label naming its size and holding what createSuite registers for
   that size.
   */
  function CreateSuites(b: Benchmarks): (suites: seq<(string, seq<Registration>)>)
    ensures |suites| == |SuiteSizes|
    ensures forall i :: 0 <= i < |suites| ==> suites[i].1 == Registrations(b, SuiteSizes[i])
  {
    [
      ("10 items", Registrations(b, 10)),
      ("100 items", Registrations(b, 100)),
      ("250 items", Registrations(b, 250)),
      ("500 items", Registrations(b, 500)),
      ("1000 items", Registrations(b, 1000)),
      ("5000 items", Registrations(b, 5000)),
      ("10000 items", Registrations(b, 10000))
    ]
  }

  /** Different sizes have different decimal forms. */
  lemma {:induction false} DecimalStringInjective(n: nat, m: nat)
    requires DecimalString(n) == DecimalString(m)
    ensures n == m
  {
    var s, t := DecimalString(n), DecimalString(m);
    if n >= 10 && m >= 10 {
      assert s[..|s| - 1] == DecimalString(n / 10);
      assert t[..|t| - 1] == DecimalString(m / 10);
      DecimalStringInjective(n / 10, m / 10);
    } else if n >= 10 || m >= 10 {
      DecimalStringLength(n);
      DecimalStringLength(m);
    }
  }

  /** A number of ten or more has at least two digits. */
  lemma DecimalStringLength(n: nat)
    ensures |DecimalString(n)| >= 1
    ensures n >= 10 ==> |DecimalString(n)| >= 2
  {
  }

  /** Two sizes are stored under the same label exactly when they are equal. */
  lemma LabelInjective(n: nat, m: nat)
    ensures Label(n) == Label(m) <==> n == m
  {
    if Label(n) == Label(m) {
      var suffix := |" items"|;
      assert DecimalString(n) == Label(n)[..|Label(n)| - suffix];
      assert DecimalString(m) == Label(m)[..|Label(m)| - suffix];
      DecimalStringInjective(n, m);
    }
  }

  /**
   Each suite is stored under the decimal form of its size followed by " items", so
   (by LabelInjective) no two suites of different sizes share a label.
   */
  lemma LabelsNameTheirSizes(b: Benchmarks, i: nat)
    requires i < |CreateSuites(b)|
    ensures CreateSuites(b)[i].0 == Label(SuiteSizes[i])
  {
  }

  /** The seven keys of a suite set are pairwise distinct, so the object literal holds seven entries. */
  lemma SuiteKeysDistinct(b: Benchmarks, i: nat, j: nat)
    requires i < j < |CreateSuites(b)|
    ensures CreateSuites(b)[i].0 != CreateSuites(b)[j].0
  {
    LabelsNameTheirSizes(b, i);
    LabelsNameTheirSizes(b, j);
    LabelInjective(SuiteSizes[i], SuiteSizes[j]);
  }

  /** A table with distinct keys yields a suite whose cases have distinct names. */
  lemma RegisteredNamesDistinct(b: Benchmarks, count: nat, i: nat, j: nat)
    requires DistinctKeys(b) && i < j < |b|
    ensures Registrations(b, count)[i].name != Registrations(b, count)[j].name
  {
  }

  /** Every suite of a suite set registers the table's keys, in key order, for its own size only. */
  lemma SuitesRegisterEveryKeyInOrder(b: Benchmarks, i: nat)
    requires i < |CreateSuites(b)|
    ensures RegisteredNames(CreateSuites(b)[i].1) == Names(b)
    ensures forall r :: r in CreateSuites(b)[i].1 ==> r.benchmark.count == SuiteSizes[i]
  {
  }

  /** The repository's suite set: seven suites, each holding the five cases in key order. */
  lemma DefaultSuites(i: nat)
    requires i < |CreateSuites(AllBenchmarks)|
    ensures |CreateSuites(AllBenchmarks)| == 7 && |CreateSuites(AllBenchmarks)[i].1| == 5
    ensures RegisteredNames(CreateSuites(AllBenchmarks)[i].1) == Names(AllBenchmarks)
  {
  }
}
