/** The bounded plan-test-revise loop, and the AI planner that feeds it. */
module Agents {
  import opened Text

  datatype Outcome<+T> = Ok(value: T) | Raised(error: string)

  datatype Assertion = Assertion(name: string, passed: bool, observed: string, expected: string)
  datatype Scenario = Scenario(name: string, assertions: seq<Assertion>)
  datatype Report = Report(passed: bool, scenarios: seq<Scenario>)

  datatype Failure = Failure(scenario: string, assertion: string, observed: string, expected: string)

  datatype Changes = Changes(added: seq<string>, modified: seq<string>, removed: seq<string>)

  datatype Attempt = Attempt(
    iteration: nat, passed: bool, failedAssertions: seq<string>, failures: seq<Failure>, hash: string, changes: Changes)

  /** A planner. What `revise` answers may depend on anything the planner remembers, so the call's
      number is one of its arguments; either operation may raise. */
  datatype Planner<!G> = Planner(plan: Outcome<G>, revise: (nat, G, Report) -> Outcome<G>)

  /** What the loop uses of graphs: the acceptance suite, which may raise, the digest and the
      structural diff. */
  datatype Bench<!G> = Bench(suite: G -> Outcome<Report>, hash: G -> string, diff: (G, G) -> Changes)

  datatype Result<G> = Result(graph: G, report: Report, attempts: seq<Attempt>)

  // ---------------------------------------------------------------- what one attempt records

  function FailuresOf(scenario: string, assertions: seq<Assertion>): seq<Failure> {
    if |assertions| == 0 then []
    else
      var last := assertions[|assertions| - 1];
      FailuresOf(scenario, assertions[..|assertions| - 1])
      + if last.passed then [] else [Failure(scenario, last.name, last.observed, last.expected)]
  }

  function Failures(scenarios: seq<Scenario>): seq<Failure> {
    if |scenarios| == 0 then []
    else
      var last := scenarios[|scenarios| - 1];
      Failures(scenarios[..|scenarios| - 1]) + FailuresOf(last.name, last.assertions)
  }

  lemma {:induction false} FailuresOfAreTheFailing(scenario: string, assertions: seq<Assertion>, f: Failure)
    ensures f in FailuresOf(scenario, assertions) <==> f.scenario == scenario && exists k | 0 <= k < |assertions| ::
      && !assertions[k].passed
      && f == Failure(scenario, assertions[k].name, assertions[k].observed, assertions[k].expected)
  {
    if |assertions| != 0 {
      var init := assertions[..|assertions| - 1];
      FailuresOfAreTheFailing(scenario, init, f);
      assert forall k | 0 <= k < |init| :: init[k] == assertions[k];
    }
  }

  /** Nothing failed iff every assertion of every scenario passed. */
  lemma {:induction false} NoFailuresIffAllPass(scenarios: seq<Scenario>)
    ensures Failures(scenarios) == [] <==>
      forall i, k | 0 <= i < |scenarios| && 0 <= k < |scenarios[i].assertions| :: scenarios[i].assertions[k].passed
  {
    if |scenarios| != 0 {
      var (init, last) := (scenarios[..|scenarios| - 1], scenarios[|scenarios| - 1]);
      NoFailuresIffAllPass(init);
      assert forall i | 0 <= i < |init| :: init[i] == scenarios[i];
      assert scenarios[|scenarios| - 1].assertions == last.assertions;
      if FailuresOf(last.name, last.assertions) == [] {
        forall k | 0 <= k < |last.assertions| ensures last.assertions[k].passed {
          var a := last.assertions[k];
          FailuresOfAreTheFailing(last.name, last.assertions, Failure(last.name, a.name, a.observed, a.expected));
        }
      } else {
        var f := FailuresOf(last.name, last.assertions)[0];
        FailuresOfAreTheFailing(last.name, last.assertions, f);
      }
    }
  }

  /** An assertion of a report: the scenario's place and its own place in the scenario. */
  datatype Place = Place(scenario: nat, assertion: nat)

  predicate Earlier(a: Place, b: Place) {
    a.scenario < b.scenario || (a.scenario == b.scenario && a.assertion < b.assertion)
  }

  predicate FailsAt(scenarios: seq<Scenario>, place: Place) {
    && place.scenario < |scenarios| && place.assertion < |scenarios[place.scenario].assertions|
    && !scenarios[place.scenario].assertions[place.assertion].passed
  }

  predicate IsFailureAt(scenarios: seq<Scenario>, place: Place, f: Failure)
    requires FailsAt(scenarios, place)
  {
    var assertion := scenarios[place.scenario].assertions[place.assertion];
    && f.scenario == scenarios[place.scenario].name && f.assertion == assertion.name
    && f.observed == assertion.observed && f.expected == assertion.expected
  }

  /** The failures are those of the failing assertions, each once, in the report's order. */
  ghost predicate ListsFailures(scenarios: seq<Scenario>, failures: seq<Failure>) {
    exists places :: AreFailures(scenarios, failures, places)
  }

  ghost predicate AreFailures(scenarios: seq<Scenario>, failures: seq<Failure>, places: seq<Place>) {
    && |places| == |failures|
    && (forall k | 0 <= k < |places| :: FailsAt(scenarios, places[k]) && IsFailureAt(scenarios, places[k], failures[k]))
    && (forall k, l | 0 <= k < l < |places| :: Earlier(places[k], places[l]))
    && forall place | FailsAt(scenarios, place) :: place in places
  }

  /** Where the first `n` assertions of scenario `i` fail. */
  function FailingPlaces(scenarios: seq<Scenario>, i: nat, n: nat): seq<Place>
    requires i < |scenarios| && n <= |scenarios[i].assertions|
  {
    if n == 0 then []
    else FailingPlaces(scenarios, i, n - 1) + if scenarios[i].assertions[n - 1].passed then [] else [Place(i, n - 1)]
  }

  lemma {:induction false} ScenarioFailures(scenarios: seq<Scenario>, i: nat, n: nat)
    requires i < |scenarios| && n <= |scenarios[i].assertions|
    ensures
      var (places, failures) := (FailingPlaces(scenarios, i, n),
                                 FailuresOf(scenarios[i].name, scenarios[i].assertions[..n]));
      && |places| == |failures|
      && (forall k | 0 <= k < |places| :: places[k].scenario == i && places[k].assertion < n)
      && (forall k | 0 <= k < |places| :: FailsAt(scenarios, places[k])
             && IsFailureAt(scenarios, places[k], failures[k]))
      && (forall k, l | 0 <= k < l < |places| :: Earlier(places[k], places[l]))
      && forall place: Place | FailsAt(scenarios, place) && place.scenario == i && place.assertion < n ::
           place in places
  {
    if n > 0 {
      ScenarioFailures(scenarios, i, n - 1);
      assert scenarios[i].assertions[..n][..n - 1] == scenarios[i].assertions[..n - 1];
      var (before, all) := (FailingPlaces(scenarios, i, n - 1), FailingPlaces(scenarios, i, n));
      assert before <= all;
      forall place | FailsAt(scenarios, place) && place.scenario == i && place.assertion < n ensures place in all {
        if place.assertion < n - 1 { assert place in before; } else { assert all[|all| - 1] == place; }
      }
    }
  }

  lemma {:induction false} FailuresAreListed(scenarios: seq<Scenario>) returns (places: seq<Place>)
    ensures AreFailures(scenarios, Failures(scenarios), places)
  {
    if |scenarios| == 0 {
      places := [];
    } else {
      var n := |scenarios| - 1;
      var before := FailuresAreListed(scenarios[..n]);
      var here := FailingPlaces(scenarios, n, |scenarios[n].assertions|);
      ScenarioFailures(scenarios, n, |scenarios[n].assertions|);
      assert scenarios[n].assertions[..|scenarios[n].assertions|] == scenarios[n].assertions;
      places := before + here;
      var (first, last) := (Failures(scenarios[..n]), FailuresOf(scenarios[n].name, scenarios[n].assertions));
      assert Failures(scenarios) == first + last;
      forall k | 0 <= k < |places|
        ensures FailsAt(scenarios, places[k]) && IsFailureAt(scenarios, places[k], (first + last)[k])
      {
        if k < |before| { assert FailsAt(scenarios[..n], before[k]); }
      }
      forall k, l | 0 <= k < l < |places| ensures Earlier(places[k], places[l]) {
        if k < |before| { assert FailsAt(scenarios[..n], before[k]); }
      }
      forall place | FailsAt(scenarios, place) ensures place in places {
        if place.scenario < n {
          assert FailsAt(scenarios[..n], place) && place in before;
        } else {
          assert place in here;
        }
      }
    }
  }

  function FailedAssertions(failures: seq<Failure>): seq<string> {
    seq(|failures|, k requires 0 <= k < |failures| => failures[k].assertion)
  }

  function AttemptOf<G>(bench: Bench<G>, iteration: nat, graph: G, report: Report, previous: Option<G>): Attempt {
    var failures := Failures(report.scenarios);
    Attempt(iteration, report.passed, FailedAssertions(failures), failures, bench.hash(graph),
            if previous.None? then Changes([], [], []) else bench.diff(previous.value, graph))
  }

  // ---------------------------------------------------------------- the loop

  ghost predicate Failed<G>(bench: Bench<G>, graph: G) {
    bench.suite(graph).Ok? && !bench.suite(graph).value.passed
  }

  ghost predicate RevisedTo<G>(planner: Planner<G>, bench: Bench<G>, graphs: seq<G>, i: nat)
    requires i + 1 < |graphs|
  {
    Failed(bench, graphs[i]) && planner.revise(i, graphs[i], bench.suite(graphs[i]).value) == Ok(graphs[i + 1])
  }

  /** All graphs but the last failed, and graph `i + 1` is the planner's answer to call `i`, made on
      graph `i` and its report. */
  ghost predicate Planned<G>(planner: Planner<G>, bench: Bench<G>, graphs: seq<G>) {
    && |graphs| > 0 && planner.plan == Ok(graphs[0])
    && forall i | 0 <= i < |graphs| - 1 :: RevisedTo(planner, bench, graphs, i)
  }

  /** The loop goes no further: the suite raises, the graph passes, the bound is reached or no
      revision of it comes back. */
  ghost predicate Stops<G>(planner: Planner<G>, bench: Bench<G>, maxAttempts: nat, graphs: seq<G>)
    requires |graphs| > 0
  {
    var last := graphs[|graphs| - 1];
    || !Failed(bench, last) || |graphs| == maxAttempts
    || planner.revise(|graphs| - 1, last, bench.suite(last).value).Raised?
  }

  /** The graphs of one whole run. */
  ghost predicate IsTrace<G>(planner: Planner<G>, bench: Bench<G>, maxAttempts: nat, graphs: seq<G>) {
    Planned(planner, bench, graphs) && |graphs| <= maxAttempts && Stops(planner, bench, maxAttempts, graphs)
  }

  /** The graph tested before graph `i`. */
  function Before<G>(graphs: seq<G>, i: nat): Option<G>
    requires i <= |graphs|
  {
    if i == 0 then None else Some(graphs[i - 1])
  }

  /** What attempt `i` records: its number, whether its graph passed, the failing assertions in the
      report's order, the digest, and the changes from the graph before to this one. */
  ghost predicate Records<G>(bench: Bench<G>, graphs: seq<G>, i: nat, attempt: Attempt)
    requires i < |graphs| && bench.suite(graphs[i]).Ok?
  {
    var report := bench.suite(graphs[i]).value;
    && attempt.iteration == i + 1 && (attempt.passed <==> report.passed)
    && ListsFailures(report.scenarios, attempt.failures)
    && |attempt.failedAssertions| == |attempt.failures|
    && (forall k | 0 <= k < |attempt.failures| :: attempt.failedAssertions[k] == attempt.failures[k].assertion)
    && attempt.hash == bench.hash(graphs[i])
    && attempt.changes == if i == 0 then Changes([], [], []) else bench.diff(graphs[i - 1], graphs[i])
  }

  /** Each graph was tested and its attempt recorded. */
  ghost predicate Attempted<G>(bench: Bench<G>, graphs: seq<G>, attempts: seq<Attempt>) {
    && |attempts| == |graphs|
    && forall i | 0 <= i < |graphs| :: bench.suite(graphs[i]).Ok? && Records(bench, graphs, i, attempts[i])
  }

  lemma AttemptedNothing<G>(bench: Bench<G>)
    ensures Attempted(bench, [], [])
  {
  }

  lemma AttemptRecords<G>(bench: Bench<G>, graphs: seq<G>, graph: G)
    requires bench.suite(graph).Ok?
    ensures Records(bench, graphs + [graph], |graphs|,
      AttemptOf(bench, |graphs| + 1, graph, bench.suite(graph).value, Before(graphs, |graphs|)))
  {
    var report := bench.suite(graph).value;
    var places := FailuresAreListed(report.scenarios);
    assert (graphs + [graph])[|graphs|] == graph;
    hide AreFailures, Failures;
  }

  lemma RecordsStay<G>(bench: Bench<G>, graphs: seq<G>, graph: G, i: nat, attempt: Attempt)
    requires i < |graphs| && bench.suite(graphs[i]).Ok? && Records(bench, graphs, i, attempt)
    ensures bench.suite((graphs + [graph])[i]).Ok? && Records(bench, graphs + [graph], i, attempt)
  {
    hide ListsFailures;
  }

  lemma AttemptedNext<G>(bench: Bench<G>, graphs: seq<G>, attempts: seq<Attempt>, graph: G)
    requires Attempted(bench, graphs, attempts) && bench.suite(graph).Ok?
    ensures Attempted(bench, graphs + [graph],
      attempts + [AttemptOf(bench, |graphs| + 1, graph, bench.suite(graph).value, Before(graphs, |graphs|))])
  {
    hide AttemptOf, Before, Records;
    AttemptRecords(bench, graphs, graph);
    forall i | 0 <= i < |graphs|
      ensures bench.suite((graphs + [graph])[i]).Ok? && Records(bench, graphs + [graph], i, attempts[i])
    {
      RecordsStay(bench, graphs, graph, i, attempts[i]);
    }
  }

  lemma PlannedNext<G>(planner: Planner<G>, bench: Bench<G>, graphs: seq<G>, graph: G)
    requires Planned(planner, bench, graphs)
    requires Failed(bench, graphs[|graphs| - 1])
    requires planner.revise(|graphs| - 1, graphs[|graphs| - 1], bench.suite(graphs[|graphs| - 1]).value) == Ok(graph)
    ensures Planned(planner, bench, graphs + [graph])
  {
    var more := graphs + [graph];
    forall i | 0 <= i < |more| - 1 ensures RevisedTo(planner, bench, more, i) {
      if i < |graphs| - 1 { assert RevisedTo(planner, bench, graphs, i); }
    }
  }

  /** The loop over one job. `graphs` are the graphs handed to the acceptance suite, in order. */
  method Run<G>(planner: Planner<G>, bench: Bench<G>, maxAttempts: nat)
    returns (outcome: Outcome<Result<G>>, graphs: seq<G>, revisions: nat)
    requires maxAttempts >= 1
    ensures planner.plan.Raised? ==> outcome == Raised(planner.plan.error) && graphs == [] && revisions == 0
    ensures planner.plan.Ok? ==> IsTrace(planner, bench, maxAttempts, graphs)
    ensures outcome.Ok? ==>
      && Attempted(bench, graphs, outcome.value.attempts) && |graphs| > 0
      && outcome.value.graph == graphs[|graphs| - 1]
      && bench.suite(outcome.value.graph) == Ok(outcome.value.report)
      && (outcome.value.report.passed || |graphs| == maxAttempts)
      && revisions == |graphs| - 1
    ensures outcome.Raised? && planner.plan.Ok? ==>
      var last := graphs[|graphs| - 1];
      if bench.suite(last).Raised? then outcome.error == bench.suite(last).error && revisions == |graphs| - 1
      else
        var revised := planner.revise(|graphs| - 1, last, bench.suite(last).value);
        && !bench.suite(last).value.passed && |graphs| < maxAttempts && revisions == |graphs|
        && revised == Raised(outcome.error)
  {
    hide AttemptOf, Attempted, Planned;
    graphs, revisions := [], 0;
    AttemptedNothing(bench);
    if planner.plan.Raised? {
      return Raised(planner.plan.error), graphs, revisions;
    }
    var graph := planner.plan.value;
    assert Planned(planner, bench, [] + [graph]) by { PlannedFirst(planner, bench, graph); }
    var attempts: seq<Attempt> := [];
    var previous: Option<G> := None;
    for iteration := 1 to maxAttempts + 1
      invariant iteration <= maxAttempts && |graphs| == revisions == iteration - 1
      invariant Planned(planner, bench, graphs + [graph]) && Attempted(bench, graphs, attempts)
      invariant previous == Before(graphs, |graphs|)
    {
      var tested := bench.suite(graph);
      if tested.Raised? {
        return Raised(tested.error), graphs + [graph], revisions;
      }
      var report := tested.value;
      AttemptedNext(bench, graphs, attempts, graph);
      attempts := attempts + [AttemptOf(bench, iteration, graph, report, previous)];
      graphs := graphs + [graph];
      if report.passed || iteration == maxAttempts {
        return Ok(Result(graph, report, attempts)), graphs, revisions;
      }
      previous := Some(graph);
      revisions := revisions + 1;
      var revised := planner.revise(iteration - 1, graph, report);
      if revised.Raised? {
        return Raised(revised.error), graphs, revisions;
      }
      graph := revised.value;
      PlannedNext(planner, bench, graphs, graph);
    }
    assert false; // the source's "unreachable"
  }

  lemma PlannedFirst<G>(planner: Planner<G>, bench: Bench<G>, graph: G)
    requires planner.plan == Ok(graph)
    ensures Planned(planner, bench, [] + [graph])
  {
  }

  lemma {:induction false} TracesBeginAlike<G>(planner: Planner<G>, bench: Bench<G>, a: seq<G>, b: seq<G>, n: nat)
    requires Planned(planner, bench, a) && Planned(planner, bench, b)
    requires n <= |a| && n <= |b|
    ensures a[..n] == b[..n]
  {
    if n > 1 {
      TracesBeginAlike(planner, bench, a, b, n - 1);
      assert a[n - 2] == a[..n - 1][n - 2] && b[n - 2] == b[..n - 1][n - 2];
      assert RevisedTo(planner, bench, a, n - 2) && RevisedTo(planner, bench, b, n - 2);
      assert a[..n] == a[..n - 1] + [a[n - 1]] && b[..n] == b[..n - 1] + [b[n - 1]];
    }
  }

  lemma GoesOn<G>(planner: Planner<G>, bench: Bench<G>, graphs: seq<G>, n: nat)
    requires Planned(planner, bench, graphs) && 0 < n < |graphs|
    ensures Failed(bench, graphs[n - 1])
    ensures planner.revise(n - 1, graphs[n - 1], bench.suite(graphs[n - 1]).value).Ok?
  {
    assert RevisedTo(planner, bench, graphs, n - 1);
  }

  /** A run that stops does not go on. */
  lemma TraceIsNoLonger<G>(planner: Planner<G>, bench: Bench<G>, maxAttempts: nat, a: seq<G>, b: seq<G>)
    requires IsTrace(planner, bench, maxAttempts, a) && IsTrace(planner, bench, maxAttempts, b)
    ensures |b| <= |a|
  {
    if |a| < |b| {
      TracesBeginAlike(planner, bench, a, b, |a|);
      assert b[..|a|][|a| - 1] == a[..|a|][|a| - 1];
      GoesOn(planner, bench, b, |a|);
    }
  }

  /** A run's trace is determined by the planner, the suite and the bound: no two traces satisfy its
      contract. */
  lemma TraceIsUnique<G>(planner: Planner<G>, bench: Bench<G>, maxAttempts: nat, a: seq<G>, b: seq<G>)
    requires IsTrace(planner, bench, maxAttempts, a) && IsTrace(planner, bench, maxAttempts, b)
    ensures a == b
  {
    TraceIsNoLonger(planner, bench, maxAttempts, a, b);
    TraceIsNoLonger(planner, bench, maxAttempts, b, a);
    TracesBeginAlike(planner, bench, a, b, |a|);
    assert a[..|a|] == a && b[..|a|] == b;
  }
}
