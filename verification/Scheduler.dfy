/**
  The manifest runner: tests run in order, parallel ones as futures that are collected in batches, serial
  ones alone. Its progress log is proved to be a legal interleaving, its results those of a sequential run.
*/
module Scheduler {
  import opened Prelude

  datatype Test = Test(name: string, serial: bool)

  // The RUN and DONE lines of the progress log; tests are named by their position.
  datatype Event<R> = Run(index: nat) | Done(index: nat, result: R)

  function Runs<R>(log: seq<Event<R>>): nat {
    if log == [] then 0 else Runs(log[..|log| - 1]) + if log[|log| - 1].Run? then 1 else 0
  }

  function Dones<R>(log: seq<Event<R>>): nat {
    if log == [] then 0 else Dones(log[..|log| - 1]) + if log[|log| - 1].Done? then 1 else 0
  }

  function Slots(jobs: nat): nat { if jobs <= 1 then 1 else jobs }

  predicate LastIsRun<R>(log: seq<Event<R>>) { log != [] && log[|log| - 1].Run? }

  // Collecting begins when all slots are taken, at the end, and around a serial test.
  ghost predicate IsDue(tests: seq<Test>, jobs: nat, runs: nat, dones: nat)
    requires 0 < runs <= |tests|
  {
    runs - dones >= Slots(jobs) || runs == |tests| || tests[runs].serial || tests[runs - 1].serial
  }

  // This event may follow that log: tests start in order, a slot is free, no serial test is unfinished,
  // a serial test waits for all others, and tests finish in order with their own outcome. Collecting begins
  // when it is due and goes on until no test is unfinished.
  ghost predicate MayFollow<R>(tests: seq<Test>, jobs: nat, outcome: Test -> R, log: seq<Event<R>>, e: Event<R>) {
    match e
    case Run(i) =>
      && i == Runs(log) && i < |tests| && i < Dones(log) + Slots(jobs)
      && (tests[i].serial ==> Dones(log) == i)
      && (Dones(log) < i ==> LastIsRun(log))
      && forall s: nat :: Dones(log) <= s < i ==> !tests[s].serial
    case Done(i, result) =>
      && i == Dones(log) && i < Runs(log) <= |tests| && result == outcome(tests[i])
      && (LastIsRun(log) ==> IsDue(tests, jobs, Runs(log), i))
  }

  ghost predicate Legal<R>(tests: seq<Test>, jobs: nat, outcome: Test -> R, log: seq<Event<R>>) {
    forall k: nat :: k < |log| ==> MayFollow(tests, jobs, outcome, log[..k], log[k])
  }

  // ---- What a legal log promises ----

  lemma {:induction false} CountsGrow<R>(log: seq<Event<R>>, j: nat, k: nat)
    requires j <= k <= |log|
    ensures Runs(log[..j]) <= Runs(log[..k]) && Dones(log[..j]) <= Dones(log[..k])
    decreases k - j
  {
    if j < k {
      CountsGrow(log, j, k - 1);
      assert log[..k][..k - 1] == log[..k - 1];
    }
  }

  lemma CountsNext<R>(log: seq<Event<R>>, k: nat)
    requires k < |log|
    ensures Runs(log[..k + 1]) == Runs(log[..k]) + if log[k].Run? then 1 else 0
    ensures Dones(log[..k + 1]) == Dones(log[..k]) + if log[k].Done? then 1 else 0
  {
    assert log[..k + 1][..k] == log[..k];
  }

  // At every moment at most as many tests are outstanding as there are jobs, or one.
  lemma {:induction false} OutstandingIsBounded<R>(tests: seq<Test>, jobs: nat, outcome: Test -> R,
                                                   log: seq<Event<R>>, k: nat)
    requires Legal(tests, jobs, outcome, log) && k <= |log|
    ensures Dones(log[..k]) <= Runs(log[..k]) <= Dones(log[..k]) + if jobs > 1 then jobs else 1
    ensures Runs(log[..k]) <= |tests|
  {
    if k > 0 {
      OutstandingIsBounded(tests, jobs, outcome, log, k - 1);
      CountsNext(log, k - 1);
      assert MayFollow(tests, jobs, outcome, log[..k - 1], log[k - 1]);
    }
  }

  // Two tests overlap only when both are parallel, and then they are fewer than jobs apart.
  lemma OverlappingTestsAreParallel<R>(tests: seq<Test>, jobs: nat, outcome: Test -> R, log: seq<Event<R>>,
                                       a: nat, b: nat, c: nat)
    requires Legal(tests, jobs, outcome, log) && a < b < c < |log|
    requires log[a].Run? && log[b].Run? && log[c].Done? && log[c].index == log[a].index
    ensures var i, j := log[a].index, log[b].index;
      i < j < |tests| && !tests[i].serial && !tests[j].serial && j - i < jobs
  {
    assert MayFollow(tests, jobs, outcome, log[..a], log[a]);
    assert MayFollow(tests, jobs, outcome, log[..b], log[b]);
    assert MayFollow(tests, jobs, outcome, log[..c], log[c]);
    CountsNext(log, a);
    CountsGrow(log, a + 1, b);
    CountsGrow(log, b, c);
    OutstandingIsBounded(tests, jobs, outcome, log, b);
  }

  // The results in the order in which tests finish.
  function Finished<R>(log: seq<Event<R>>): seq<R> {
    if log == [] then []
    else Finished(log[..|log| - 1]) + if log[|log| - 1].Done? then [log[|log| - 1].result] else []
  }

  function Sequential<R>(tests: seq<Test>, outcome: Test -> R): (r: seq<R>)
    ensures |r| == |tests| && forall i :: 0 <= i < |tests| ==> r[i] == outcome(tests[i])
  {
    if tests == [] then []
    else Sequential(tests[..|tests| - 1], outcome) + [outcome(tests[|tests| - 1])]
  }

  lemma {:induction false} FinishedPrefix<R>(tests: seq<Test>, jobs: nat, outcome: Test -> R,
                                             log: seq<Event<R>>, k: nat)
    requires Legal(tests, jobs, outcome, log) && k <= |log|
    ensures Dones(log[..k]) <= |tests| && Finished(log[..k]) == Sequential(tests[..Dones(log[..k])], outcome)
  {
    if k > 0 {
      var before, e := log[..k - 1], log[k - 1];
      FinishedPrefix(tests, jobs, outcome, log, k - 1);
      CountsNext(log, k - 1);
      assert MayFollow(tests, jobs, outcome, before, e);
      assert log[..k][..k - 1] == before;
      assert Finished(log[..k]) == Finished(before) + if e.Done? then [e.result] else [];
      hide Finished, Dones, Runs, Legal;
      if e.Done? {
        assert tests[..e.index + 1][..e.index] == tests[..e.index];
      }
    } else {
      assert Finished(log[..0]) == [];
    }
  }

  // A complete legal log reports exactly what a sequential run reports, in the same order.
  lemma {:induction false} ParallelRefinesSequential<R>(tests: seq<Test>, jobs: nat, outcome: Test -> R,
                                                        log: seq<Event<R>>)
    requires Legal(tests, jobs, outcome, log) && Dones(log) == |tests|
    ensures Finished(log) == Sequential(tests, outcome)
  {
    assert log[..|log|] == log && tests[..|tests|] == tests;
    FinishedPrefix(tests, jobs, outcome, log, |log|);
  }

  lemma OneMayFollow<R>(tests: seq<Test>, jobs: nat, outcome: Test -> R, log: seq<Event<R>>,
                        d: Event<R>, e: Event<R>)
    requires MayFollow(tests, jobs, outcome, log, d) && MayFollow(tests, jobs, outcome, log, e)
    ensures d == e
  {
    hide Runs, Dones;
  }

  lemma NothingFollowsTheEnd<R>(tests: seq<Test>, jobs: nat, outcome: Test -> R, log: seq<Event<R>>, e: Event<R>)
    requires Dones(log) == |tests| && Dones(log) <= Runs(log)
    ensures !MayFollow(tests, jobs, outcome, log, e)
  {
  }

  lemma {:induction false} CommonPrefix<R>(tests: seq<Test>, jobs: nat, outcome: Test -> R,
                                           a: seq<Event<R>>, b: seq<Event<R>>, k: nat)
    requires Legal(tests, jobs, outcome, a) && Legal(tests, jobs, outcome, b) && k <= |a| && k <= |b|
    ensures a[..k] == b[..k]
  {
    hide MayFollow;
    if k > 0 {
      CommonPrefix(tests, jobs, outcome, a, b, k - 1);
      OneMayFollow(tests, jobs, outcome, a[..k - 1], a[k - 1], b[k - 1]);
      assert a[..k] == a[..k - 1] + [a[k - 1]] && b[..k] == b[..k - 1] + [b[k - 1]];
    }
  }

  lemma CompleteIsNoPrefix<R>(tests: seq<Test>, jobs: nat, outcome: Test -> R, a: seq<Event<R>>, b: seq<Event<R>>)
    requires Legal(tests, jobs, outcome, a) && Legal(tests, jobs, outcome, b) && Dones(a) == |tests|
    ensures |b| <= |a|
  {
    hide MayFollow;
    if |a| < |b| {
      CommonPrefix(tests, jobs, outcome, a, b, |a|);
      OutstandingIsBounded(tests, jobs, outcome, a, |a|);
      assert a[..|a|] == a == b[..|a|];
      NothingFollowsTheEnd(tests, jobs, outcome, a, b[|a|]);
    }
  }

  // What is started and collected when leaves no choice: there is one complete log.
  lemma LogIsDetermined<R>(tests: seq<Test>, jobs: nat, outcome: Test -> R, a: seq<Event<R>>, b: seq<Event<R>>)
    requires Legal(tests, jobs, outcome, a) && Legal(tests, jobs, outcome, b)
    requires Dones(a) == |tests| && Dones(b) == |tests|
    ensures a == b
  {
    hide Legal, Dones;
    CompleteIsNoPrefix(tests, jobs, outcome, a, b);
    CompleteIsNoPrefix(tests, jobs, outcome, b, a);
    CommonPrefix(tests, jobs, outcome, a, b, |a|);
    assert a[..|a|] == a && b[..|b|] == b;
  }

  // Every test is started exactly once and finished exactly once, after it was started.
  lemma {:induction false} EveryTestOnce<R>(tests: seq<Test>, jobs: nat, outcome: Test -> R,
                                            log: seq<Event<R>>, i: nat)
    returns (start: nat, end: nat)
    requires Legal(tests, jobs, outcome, log) && i < Dones(log)
    ensures start < end < |log| && log[start] == Run(i) && i < |tests| && log[end] == Done(i, outcome(tests[i]))
    ensures forall k: nat :: k < |log| && log[k].Run? && log[k].index == i ==> k == start
    ensures forall k: nat :: k < |log| && log[k].Done? && log[k].index == i ==> k == end
  {
    assert log[..|log|] == log;
    OutstandingIsBounded(tests, jobs, outcome, log, |log|);
    start := RunOf(log, |log|, i);
    end := DoneOf(log, |log|, i);
    assert MayFollow(tests, jobs, outcome, log[..start], log[start]);
    assert MayFollow(tests, jobs, outcome, log[..end], log[end]);
    if end < start {
      CountsGrow(log, end, start);
    }
    forall k: nat | k < |log| && log[k].Run? && log[k].index == i ensures k == start {
      assert MayFollow(tests, jobs, outcome, log[..k], log[k]);
      RunsAreApart(log, k, start);
      RunsAreApart(log, start, k);
    }
    forall k: nat | k < |log| && log[k].Done? && log[k].index == i ensures k == end {
      assert MayFollow(tests, jobs, outcome, log[..k], log[k]);
      DonesAreApart(log, k, end);
      DonesAreApart(log, end, k);
    }
  }

  lemma RunsAreApart<R>(log: seq<Event<R>>, j: nat, k: nat)
    requires j < |log| && k < |log| && log[j].Run?
    ensures j < k ==> Runs(log[..j]) < Runs(log[..k])
  {
    if j < k {
      CountsNext(log, j);
      CountsGrow(log, j + 1, k);
    }
  }

  lemma DonesAreApart<R>(log: seq<Event<R>>, j: nat, k: nat)
    requires j < |log| && k < |log| && log[j].Done?
    ensures j < k ==> Dones(log[..j]) < Dones(log[..k])
  {
    if j < k {
      CountsNext(log, j);
      CountsGrow(log, j + 1, k);
    }
  }

  lemma {:induction false} RunOf<R>(log: seq<Event<R>>, n: nat, i: nat) returns (k: nat)
    requires n <= |log| && i < Runs(log[..n])
    ensures k < n && log[k].Run? && Runs(log[..k]) == i
  {
    CountsNext(log, n - 1);
    if i < Runs(log[..n - 1]) {
      k := RunOf(log, n - 1, i);
    } else {
      k := n - 1;
    }
  }

  lemma {:induction false} DoneOf<R>(log: seq<Event<R>>, n: nat, i: nat) returns (k: nat)
    requires n <= |log| && i < Dones(log[..n])
    ensures k < n && log[k].Done? && Dones(log[..k]) == i
  {
    CountsNext(log, n - 1);
    if i < Dones(log[..n - 1]) {
      k := DoneOf(log, n - 1, i);
    } else {
      k := n - 1;
    }
  }

  lemma LegalNext<R>(tests: seq<Test>, jobs: nat, outcome: Test -> R, log: seq<Event<R>>, e: Event<R>)
    requires Legal(tests, jobs, outcome, log) && MayFollow(tests, jobs, outcome, log, e)
    ensures Legal(tests, jobs, outcome, log + [e])
    ensures Runs(log + [e]) == Runs(log) + if e.Run? then 1 else 0
    ensures Dones(log + [e]) == Dones(log) + if e.Done? then 1 else 0
  {
    var more := log + [e];
    assert more[..|log|] == log;
    forall k: nat | k < |more| ensures MayFollow(tests, jobs, outcome, more[..k], more[k]) {
      if k < |log| {
        assert more[..k] == log[..k];
        assert MayFollow(tests, jobs, outcome, log[..k], log[k]);
      }
    }
  }

  // Exactly the first n results have been stored.
  ghost predicate Stored<R>(tests: seq<Test>, outcome: Test -> R, results: seq<Option<R>>, n: nat) {
    && |results| == |tests| && n <= |tests|
    && (forall i :: 0 <= i < n ==> results[i] == Some(outcome(tests[i])))
    && (forall i :: n <= i < |tests| ==> results[i] == None)
  }

  lemma StoreNext<R>(tests: seq<Test>, outcome: Test -> R, results: seq<Option<R>>, n: nat)
    requires Stored(tests, outcome, results, n) && n < |tests|
    ensures Stored(tests, outcome, results[n := Some(outcome(tests[n]))], n + 1)
  {
  }

  // The futures are those of the tests from first on, all of them parallel.
  ghost predicate Launched(tests: seq<Test>, futures: seq<Test>, indices: seq<nat>, first: nat) {
    && |indices| == |futures| && first + |futures| <= |tests|
    && futures == tests[first..first + |futures|]
    && (forall k :: 0 <= k < |futures| ==> indices[k] == first + k)
    && (forall s :: first <= s < first + |futures| ==> !tests[s].serial)
  }

  lemma LaunchNext(tests: seq<Test>, futures: seq<Test>, indices: seq<nat>, first: nat)
    requires Launched(tests, futures, indices, first)
    requires first + |futures| < |tests| && !tests[first + |futures|].serial
    ensures var i := first + |futures|; Launched(tests, futures + [tests[i]], indices + [i], first)
  {
  }

  // ---- The runner ----

  class Runner<R> {
    const tests: seq<Test>
    const jobs: nat
    // What running a test, with its retries, reports.
    const outcome: Test -> R
    const results: array<Option<R>>
    var futures: seq<Test>
    var futureIndices: seq<nat>
    var log: seq<Event<R>>

    ghost predicate Valid()
      reads this, results
    {
      && Legal(tests, jobs, outcome, log)
      && Runs(log) == Dones(log) + |futures| && Runs(log) <= |tests|
      && Launched(tests, futures, futureIndices, Dones(log))
      && Stored(tests, outcome, results[..], Dones(log))
      && (futures != [] ==> LastIsRun(log))
    }

    constructor (tests: seq<Test>, jobs: nat, outcome: Test -> R)
      ensures Valid() && fresh(results) && log == [] && futures == []
      ensures this.tests == tests && this.jobs == jobs && this.outcome == outcome
    {
      this.tests, this.jobs, this.outcome := tests, jobs, outcome;
      results := new Option<R>[|tests|](_ => None);
      futures, futureIndices, log := [], [], [];
    }

    // Stores the outcome of the oldest unfinished test and logs it.
    method Finish(i: nat, test: Test)
      requires Legal(tests, jobs, outcome, log)
      requires i == Dones(log) && i < Runs(log) <= |tests| && test == tests[i]
      requires LastIsRun(log) ==> IsDue(tests, jobs, Runs(log), i)
      requires Stored(tests, outcome, results[..], i)
      modifies this`log, results
      ensures Legal(tests, jobs, outcome, log)
      ensures Runs(log) == old(Runs(log)) && Dones(log) == i + 1 && !LastIsRun(log)
      ensures Stored(tests, outcome, results[..], i + 1)
    {
      var result := outcome(test);
      hide Legal, Runs, Dones;
      StoreNext(tests, outcome, results[..], i);
      ghost var before := results[..];
      results[i] := Some(result);
      assert results[..] == before[i := Some(result)];
      LegalNext(tests, jobs, outcome, log, Done(i, result));
      log := log + [Done(i, result)];
    }

    // Waits for every future in the order of launch and stores its result.
    method Drain()
      requires Valid()
      requires futures != [] ==> IsDue(tests, jobs, Runs(log), Dones(log))
      modifies this`futures, this`futureIndices, this`log, results
      ensures Valid() && futures == [] && Runs(log) == old(Runs(log))
    {
      hide Legal, Runs, Dones, Stored;
      ghost var first := Dones(log);
      for i := 0 to |futures|
        modifies this`log, results
        invariant Legal(tests, jobs, outcome, log)
        invariant Runs(log) == old(Runs(log)) && Dones(log) == first + i
        invariant i > 0 ==> !LastIsRun(log)
        invariant Stored(tests, outcome, results[..], first + i)
      {
        Finish(futureIndices[i], futures[i]);
      }
      futures, futureIndices := [], [];
    }

    method RunAlone(i: nat)
      requires Valid() && futures == [] && i == Runs(log) && i < |tests| && (tests[i].serial || jobs <= 1)
      modifies this`log, results
      ensures Valid() && futures == [] && Runs(log) == i + 1
    {
      hide Legal, Runs, Dones, Stored;
      LegalNext(tests, jobs, outcome, log, Run(i));
      log := log + [Run(i)];
      Finish(i, tests[i]);
    }

    method Launch(i: nat)
      requires Valid() && i == Runs(log) && i < |tests| && !tests[i].serial
      requires |futures| < Slots(jobs)
      modifies this`futures, this`futureIndices, this`log
      ensures Valid() && |futures| == old(|futures|) + 1 && Runs(log) == i + 1
    {
      hide Legal, Runs, Dones, Stored;
      LaunchNext(tests, futures, futureIndices, Dones(log));
      LegalNext(tests, jobs, outcome, log, Run(i));
      log := log + [Run(i)];
      futures := futures + [tests[i]];
      futureIndices := futureIndices + [i];
    }

    // Every result is that of a sequential run, the log is legal and complete, and nothing is outstanding.
    method RunManifest()
      requires Valid() && log == []
      modifies this`futures, this`futureIndices, this`log, results
      ensures Legal(tests, jobs, outcome, log)
      ensures Runs(log) == |tests| && Dones(log) == |tests| && futures == [] && futureIndices == []
      ensures results.Length == |tests|
      ensures forall i :: 0 <= i < |tests| ==> results[i] == Some(Sequential(tests, outcome)[i])
    {
      for i := 0 to |tests|
        invariant Valid() && Runs(log) == i
        invariant |futures| < Slots(jobs)
      {
        hide Legal, Runs, Dones, Stored, Launched;
        if tests[i].serial || jobs <= 1 {
          Drain();
          RunAlone(i);
        } else {
          Launch(i);
          if |futures| >= jobs {
            Drain();
          }
        }
      }
      Drain();
      assert forall i :: 0 <= i < |tests| ==> results[i] == results[..][i];
    }
  }
}
