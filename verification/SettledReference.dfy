/** Checking a reference right after retaining it finds no drift. */
module SettledReference {
  import opened Folds
  import opened Text
  import opened Sampling
  import opened AbsentInputs

  /** The engine's instance has a fixed set of inputs: it rejects a sample input outside the set by
      name, and runs only samples within it. What it computes from them is arbitrary. */
  ghost predicate Honest<T(!new)>(engine: Engine<T>, instance: set<string>) {
    forall samples :: HonestOn(engine, instance, samples)
  }

  ghost predicate HonestOn<T>(engine: Engine<T>, instance: set<string>, samples: seq<Sample>) {
    var outcome := engine(samples);
    && (outcome.Ran? ==> OnlyNames(samples, instance))
    && (outcome.UnknownInput? ==> Names(samples, outcome.name) && outcome.name !in instance)
  }

  predicate IsOn(s: Scenario, absent: set<string>) {
    s.Moved? && s.point in absent
  }

  /** The scenarios that do not move one of `absent`. */
  function Surviving(scenarios: seq<Scenario>, absent: set<string>): seq<Scenario> {
    if |scenarios| == 0 then []
    else
      var last := scenarios[|scenarios| - 1];
      Surviving(scenarios[..|scenarios| - 1], absent) + if IsOn(last, absent) then [] else [last]
  }

  lemma {:induction false} WithoutConcat(a: seq<Scenario>, b: seq<Scenario>, absent: set<string>)
    ensures Surviving(a + b, absent) == Surviving(a, absent) + Surviving(b, absent)
    decreases |b|
  {
    if |b| == 0 {
      assert a + b == a;
    } else {
      assert (a + b)[..|a + b| - 1] == a + b[..|b| - 1];
      WithoutConcat(a, b[..|b| - 1], absent);
    }
  }

  lemma {:induction false} WithoutAll(scenarios: seq<Scenario>, absent: set<string>, on: bool)
    requires forall k | 0 <= k < |scenarios| :: IsOn(scenarios[k], absent) == on
    ensures Surviving(scenarios, absent) == if on then [] else scenarios
  {
    if |scenarios| != 0 {
      WithoutAll(scenarios[..|scenarios| - 1], absent, on);
    }
  }

  lemma {:induction false} PointScenariosWithout(setup: Setup, points: seq<string>, some: set<string>,
      more: set<string>)
    requires some <= more
    ensures PointScenarios(setup, points, more) == Surviving(PointScenarios(setup, points, some), more)
  {
    if |points| != 0 {
      var (init, point) := (points[..|points| - 1], points[|points| - 1]);
      PointScenariosWithout(setup, init, some, more);
      var here := if point in some then [] else MovesOf(setup, point);
      WithoutConcat(PointScenarios(setup, init, some), here, more);
      WithoutAll(here, more, point in more);
    }
  }

  /** Knowing of more absences only removes the scenarios on them. */
  lemma ScenariosWithout(setup: Setup, some: set<string>, more: set<string>)
    requires some <= more
    ensures ScenariosFor(setup, more) == Surviving(ScenariosFor(setup, some), more)
  {
    var steps := seq(|setup.events|, k requires 0 <= k < |setup.events| => Stepped(setup.events[k]));
    var points := PointScenarios(setup, setup.points, some);
    PointScenariosWithout(setup, setup.points, some, more);
    WithoutConcat([Nominal] + points, steps, more);
    WithoutConcat([Nominal], points, more);
    WithoutAll([Nominal], more, false);
    WithoutAll(steps, more, false);
  }

  lemma StepWithout(setup: Setup, some: set<string>, more: set<string>, event: Event)
    requires some <= more
    ensures Without(CaseOf(setup, some, Stepped(event)), more) == CaseOf(setup, more, Stepped(event))
  {
    var (a, b) := (NominalInputs(setup, some), NominalInputs(setup, more));
    assert Drop(a, more) == b;
    var after := a + (map name | name in event.changes && name in a :: event.changes[name]);
    var after' := b + (map name | name in event.changes && name in b :: event.changes[name]);
    assert Drop(after, more) == after';
    hide NominalInputs, Drop;
    var timeline := CaseOf(setup, some, Stepped(event)).timeline;
    assert DropPhases(timeline, more) == CaseOf(setup, more, Stepped(event)).timeline;
  }

  /** A surviving scenario's case is the old case with the absences dropped. */
  lemma CaseWithout(setup: Setup, some: set<string>, more: set<string>, s: Scenario)
    requires some <= more && !IsOn(s, more)
    ensures Without(CaseOf(setup, some, s), more) == CaseOf(setup, more, s)
  {
    var (a, b) := (NominalInputs(setup, some), NominalInputs(setup, more));
    match s
    case Nominal => assert Drop(a, more) == b;
    case Moved(point, move) => assert Drop(a[point := move.value], more) == b[point := move.value];
    case Stepped(event) => StepWithout(setup, some, more, event);
  }

  lemma DropAbsentees(samples: seq<Sample>, names: set<string>, absent: set<string>)
    requires OnlyNames(samples, names) && names !! absent
    ensures DropSamples(samples, absent) == samples
  {
    forall k | 0 <= k < |samples| ensures DropSamples(samples, absent)[k] == samples[k] {
      assert Drop(samples[k].inputs, absent) == samples[k].inputs;
    }
  }

  lemma DropTwice(samples: seq<Sample>, some: set<string>, more: set<string>)
    requires some <= more
    ensures DropSamples(DropSamples(samples, some), more) == DropSamples(samples, more)
  {
    forall k | 0 <= k < |samples|
      ensures DropSamples(DropSamples(samples, some), more)[k] == DropSamples(samples, more)[k] {
      assert Drop(Drop(samples[k].inputs, some), more) == Drop(samples[k].inputs, more);
    }
  }

  // ---------------------------------------------------------------- what was learned

  lemma {:induction false} RowsName(timeline: seq<Phase>, integers: set<string>, names: set<string>)
    requires forall k | 0 <= k < |timeline| :: timeline[k].inputs.Keys <= names
    ensures OnlyNames(Rows(Restate, timeline, integers), names)
  {
    if |timeline| != 0 { RowsName(Init(timeline), integers, names); }
  }

  /** Every sample of the case, whatever is dropped, names points only. */
  ghost predicate NamesPoints(setup: Setup, c: Case) {
    forall absent :: OnlyNames(SamplesOf(setup, c, absent), Elems(setup.points))
  }

  lemma CaseNamesPoints(setup: Setup, some: set<string>, s: Scenario)
    requires s.Moved? ==> s.point in setup.points
    ensures NamesPoints(setup, CaseOf(setup, some, s))
  {
    var (c, points) := (CaseOf(setup, some, s), Elems(setup.points));
    forall absent ensures OnlyNames(SamplesOf(setup, c, absent), points) {
      var known := Without(c, Elems(absent));
      RowsName(known.timeline, setup.integers, points);
    }
  }

  lemma {:induction false} MovedPoints(setup: Setup, points: seq<string>, some: set<string>)
    ensures forall s | s in PointScenarios(setup, points, some) :: s.Moved? && s.point in points
  {
    if |points| != 0 { MovedPoints(setup, points[..|points| - 1], some); }
  }

  lemma CasesNamePoints(setup: Setup, some: set<string>)
    ensures forall k | 0 <= k < |CasesFor(setup, some)| :: NamesPoints(setup, CasesFor(setup, some)[k])
  {
    hide CaseOf, NamesPoints;
    var (scenarios, cases) := (ScenariosFor(setup, some), CasesFor(setup, some));
    MovedPoints(setup, setup.points, some);
    forall k | 0 <= k < |cases| ensures NamesPoints(setup, cases[k]) {
      var s := scenarios[k];
      assert s in PointScenarios(setup, setup.points, some) || !s.Moved?;
      CaseNamesPoints(setup, some, s);
    }
  }

  /** What is on the list from `from` on are points that the instance lacks. */
  ghost predicate Learned(absent: seq<string>, from: nat, points: set<string>, instance: set<string>) {
    forall k | from <= k < |absent| :: absent[k] in points && absent[k] !in instance
  }

  lemma {:induction false} CaseLearnsAbsentees<T(!new)>(
    engine: Engine<T>, setup: Setup, c: Case, absent: seq<string>, from: nat, instance: set<string>)
    requires Honest(engine, instance) && NamesPoints(setup, c)
    requires Learned(absent, from, Elems(setup.points), instance)
    ensures Learned(ProbeCase(engine, setup, c, absent).absent, from, Elems(setup.points), instance)
    decreases MOST_ABSENT + 1 - |absent|
  {
    var samples := SamplesOf(setup, c, absent);
    var outcome := Execute(engine, setup.public, samples, absent);
    assert HonestOn(engine, instance, samples) && OnlyNames(samples, Elems(setup.points));
    if outcome.UnknownInput? && outcome.name !in absent && |absent| <= MOST_ABSENT {
      CaseLearnsAbsentees(engine, setup, c, absent + [outcome.name], from, instance);
    }
  }

  lemma {:induction false} RunLearnsAbsentees<T(!new)>(
    engine: Engine<T>, setup: Setup, cases: seq<Case>, absent: seq<string>, instance: set<string>)
    requires Honest(engine, instance) && forall k | 0 <= k < |cases| :: NamesPoints(setup, cases[k])
    ensures Learned(ProbeAll(engine, setup, cases, absent).absent, |absent|, Elems(setup.points), instance)
  {
    if |cases| != 0 {
      var init := cases[..|cases| - 1];
      RunLearnsAbsentees(engine, setup, init, absent, instance);
      CaseLearnsAbsentees(engine, setup, cases[|cases| - 1], ProbeAll(engine, setup, init, absent).absent, |absent|,
          instance);
    }
  }

  lemma NominalSample(setup: Setup, some: set<string>, absent: seq<string>)
    ensures var samples := SamplesOf(setup, CaseOf(setup, some, Nominal), absent);
      |samples| > 0 && forall x :: x in samples[0].inputs <==> x in setup.points && x !in some && x !in absent
  {
  }

  /** The nominal case names every point not known to be absent, so by then all that the instance
      lacks are known. */
  lemma NominalNamesAll<T(!new)>(engine: Engine<T>, setup: Setup, some: set<string>, trace: CaseTrace<T>,
      absent: seq<string>, from: nat, instance: set<string>)
    requires Honest(engine, instance) && RanWithPrefix(engine, setup, CaseOf(setup, some, Nominal), trace, absent, from)
    ensures Elems(setup.points) - instance <= some + Elems(absent)
  {
    var c := CaseOf(setup, some, Nominal);
    var n: nat :| from <= n && RanWith(engine, setup, c, trace, absent, n);
    var samples := SamplesOf(setup, c, absent[..n]);
    assert HonestOn(engine, instance, samples);
    NominalSample(setup, some, absent[..n]);
    hide CaseOf, SamplesOf;
    forall point | point in setup.points && point !in instance ensures point in some + Elems(absent) {
      assert point !in samples[0].inputs;
    }
  }

  lemma FinalAbsentIsPublic<T>(engine: Engine<T>, setup: Setup, cases: seq<Case>, absent: seq<string>)
    requires |cases| > 0 && ProbeAll(engine, setup, cases, absent).result.Ok?
    ensures Elems(ProbeAll(engine, setup, cases, absent).absent) <= setup.public
  {
    ProbeCaseLearns(engine, setup, cases[|cases| - 1], ProbeAll(engine, setup, cases[..|cases| - 1], absent).absent);
  }

  // ---------------------------------------------------------------- probing a kept case again

  /** A case that ran with a prefix of the final list runs at once, with the same trace, when all
      of the list is known up front. */
  lemma KeptCaseRunsAgain<T(!new)>(
    engine: Engine<T>, setup: Setup, instance: set<string>, from: seq<string>, final: seq<string>, again: seq<string>,
    s: Scenario, trace: CaseTrace<T>)
    requires Honest(engine, instance) && from <= final && Learned(final, |from|, Elems(setup.points), instance)
    requires Elems(again) == Elems(final) <= setup.public && !IsOn(s, Elems(final))
    requires RanWithPrefix(engine, setup, CaseOf(setup, Elems(from), s), trace, final, |from|)
    ensures ProbeCase(engine, setup, CaseOf(setup, Elems(final), s), again) == Probe(Ok(trace.trace), again, 1)
  {
    var c := CaseOf(setup, Elems(from), s);
    var n: nat :| |from| <= n && RanWith(engine, setup, c, trace, final, n);
    var samples := SamplesOf(setup, c, final[..n]);
    assert HonestOn(engine, instance, samples);
    KeptCaseSamples(setup, instance, from, final, final[..n], again, s);
    hide CaseOf, SamplesOf, IsOn, Learned, Honest;
    assert Execute(engine, setup.public, samples, again) == Ran(true, trace.trace);
  }

  /** Its samples are the same when all of the list is known up front. */
  lemma KeptCaseSamples(setup: Setup, instance: set<string>, from: seq<string>, final: seq<string>,
      prefix: seq<string>, again: seq<string>, s: Scenario)
    requires from <= prefix <= final && Learned(final, |prefix|, Elems(setup.points), instance)
    requires Elems(again) == Elems(final) && !IsOn(s, Elems(final))
    requires OnlyNames(SamplesOf(setup, CaseOf(setup, Elems(from), s), prefix), instance)
    ensures SamplesOf(setup, CaseOf(setup, Elems(final), s), again)
         == SamplesOf(setup, CaseOf(setup, Elems(from), s), prefix)
  {
    var (c, all) := (CaseOf(setup, Elems(from), s), Elems(final));
    PrefixElems(from, final);
    PrefixElems(prefix, final);
    SamplesAvoid(setup, c, prefix, final, instance);
    DroppingCommutes(Restate, c, Elems(prefix), setup.integers);
    DroppingCommutes(Restate, c, all, setup.integers);
    CaseWithout(setup, Elems(from), all, s);
    DroppingCommutes(Restate, CaseOf(setup, all, s), all, setup.integers);
    var whole := Samples(Restate, c, setup.integers);
    DropTwice(whole, Elems(prefix), all);
    DropTwice(whole, all, all);
    hide CaseOf, IsOn, Learned, OnlyNames, Samples, Without, DropSamples;
  }

  lemma PrefixElems(a: seq<string>, b: seq<string>)
    requires a <= b
    ensures Elems(a) <= Elems(b)
  {
    assert forall k | 0 <= k < |a| :: a[k] == b[k] && a[k] in b;
  }

  /** The samples an honest engine ran name no input of the final list. */
  lemma SamplesAvoid(setup: Setup, c: Case, prefix: seq<string>, final: seq<string>, instance: set<string>)
    requires prefix <= final && Learned(final, |prefix|, Elems(setup.points), instance)
    requires OnlyNames(SamplesOf(setup, c, prefix), instance)
    ensures DropSamples(SamplesOf(setup, c, prefix), Elems(final)) == SamplesOf(setup, c, prefix)
  {
    var samples := SamplesOf(setup, c, prefix);
    DroppingCommutes(Restate, c, Elems(prefix), setup.integers);
    var names := instance - Elems(final);
    forall k | 0 <= k < |samples| ensures samples[k].inputs.Keys <= names {
      forall name, j | name in samples[k].inputs && 0 <= j < |final| ensures final[j] != name {
        assert name !in Elems(prefix);
        if j < |prefix| { assert prefix[j] in Elems(prefix); }
      }
    }
    DropAbsentees(samples, names, Elems(final));
  }

  // ---------------------------------------------------------------- the whole reference again

  function NamesOf(scenarios: seq<Scenario>): seq<string> {
    seq(|scenarios|, k requires 0 <= k < |scenarios| => ScenarioName(scenarios[k]))
  }

  lemma {:induction false} WithoutHolds(scenarios: seq<Scenario>, absent: set<string>)
    ensures forall s :: s in Surviving(scenarios, absent) <==> s in scenarios && !IsOn(s, absent)
  {
    if |scenarios| != 0 {
      var init := scenarios[..|scenarios| - 1];
      assert scenarios == init + [scenarios[|scenarios| - 1]];
      WithoutHolds(init, absent);
    }
  }

  /** No scenario that is dropped bears the name of one that is kept. */
  ghost predicate NamesTell(setup: Setup, some: set<string>, more: set<string>) {
    forall s | s in ScenariosFor(setup, some) && IsOn(s, more) :: ScenarioName(s) !in ScenarioNames(setup, more)
  }

  lemma NameOfKept(setup: Setup, some: set<string>, more: set<string>, s: Scenario)
    requires some <= more && s in ScenariosFor(setup, some) && !IsOn(s, more)
    ensures ScenarioName(s) in ScenarioNames(setup, more)
  {
    ScenariosWithout(setup, some, more);
    WithoutHolds(ScenariosFor(setup, some), more);
  }

  /** Distinct names always tell. */
  lemma DistinctNamesTell(setup: Setup, some: set<string>, more: set<string>)
    requires some <= more && Distinct(NamesOf(ScenariosFor(setup, some)))
    ensures NamesTell(setup, some, more)
  {
    var scenarios := ScenariosFor(setup, some);
    ScenariosWithout(setup, some, more);
    WithoutHolds(scenarios, more);
    forall s | s in scenarios && IsOn(s, more) ensures ScenarioName(s) !in ScenarioNames(setup, more) {
      forall kept | kept in ScenariosFor(setup, more) ensures ScenarioName(kept) != ScenarioName(s) {
        var i, j :| 0 <= i < |scenarios| && 0 <= j < |scenarios| && scenarios[i] == s && scenarios[j] == kept;
        assert i != j && NamesOf(scenarios)[i] != NamesOf(scenarios)[j];
      }
    }
  }

  /** The traces of the scenarios that survive. */
  function Remaining<T>(scenarios: seq<Scenario>, traces: seq<CaseTrace<T>>, absent: set<string>): seq<CaseTrace<T>>
    requires |traces| == |scenarios|
  {
    if |scenarios| == 0 then []
    else
      var n := |scenarios| - 1;
      Remaining(scenarios[..n], traces[..n], absent) + if IsOn(scenarios[n], absent) then [] else [traces[n]]
  }

  /** Filtering traces by name keeps all that remain, and exactly those iff no dropped one bears a
      kept name. */
  lemma {:induction false} KeptIsRemaining<T>(scenarios: seq<Scenario>, traces: seq<CaseTrace<T>>, absent: set<string>,
      names: set<string>)
    requires |traces| == |scenarios|
    requires forall i | 0 <= i < |scenarios| && !IsOn(scenarios[i], absent) :: traces[i].name in names
    ensures |Remaining(scenarios, traces, absent)| <= |Kept(traces, names)|
    ensures Kept(traces, names) == Remaining(scenarios, traces, absent) <==>
      forall i | 0 <= i < |scenarios| && IsOn(scenarios[i], absent) :: traces[i].name !in names
    ensures |Kept(traces, names)| == |Remaining(scenarios, traces, absent)| ==>
      Kept(traces, names) == Remaining(scenarios, traces, absent)
    decreases |scenarios|
  {
    if |scenarios| != 0 {
      var n := |scenarios| - 1;
      KeptIsRemaining(scenarios[..n], traces[..n], absent, names);
    }
  }

  lemma {:induction false} RemainingAreNamed<T>(scenarios: seq<Scenario>, traces: seq<CaseTrace<T>>,
      absent: set<string>, names: set<string>)
    requires |traces| == |scenarios|
    requires forall i | 0 <= i < |scenarios| && !IsOn(scenarios[i], absent) :: traces[i].name in names
    ensures Kept(Remaining(scenarios, traces, absent), names) == Remaining(scenarios, traces, absent)
    decreases |scenarios|
  {
    if |scenarios| != 0 {
      var n := |scenarios| - 1;
      RemainingAreNamed(scenarios[..n], traces[..n], absent, names);
      var before := Remaining(scenarios[..n], traces[..n], absent);
      assert before + [] == before && (before + [traces[n]])[..|before|] == before;
    }
  }

  lemma {:induction false} RemainingRunAgain<T(!new)>(
    engine: Engine<T>, setup: Setup, instance: set<string>, from: seq<string>, final: seq<string>, again: seq<string>,
    scenarios: seq<Scenario>, traces: seq<CaseTrace<T>>)
    requires Honest(engine, instance) && from <= final && Learned(final, |from|, Elems(setup.points), instance)
    requires Elems(again) == Elems(final) <= setup.public
    requires |traces| == |scenarios|
    requires forall i | 0 <= i < |scenarios| ::
      && RanWithPrefix(engine, setup, CaseOf(setup, Elems(from), scenarios[i]), traces[i], final, |from|)
      && traces[i].name == ScenarioName(scenarios[i])
    ensures var cases := CasesOf(setup, Elems(final), Surviving(scenarios, Elems(final)));
      ProbeAll(engine, setup, cases, again) == Probe(Ok(Remaining(scenarios, traces, Elems(final))), again, |cases|)
    decreases |scenarios|
  {
    hide CaseOf, Execute, ProbeCase, RanWithPrefix, ScenarioName;
    if |scenarios| != 0 {
      var (init, last, trace) := (scenarios[..|scenarios| - 1], scenarios[|scenarios| - 1], traces[|traces| - 1]);
      var all := Elems(final);
      RemainingRunAgain(engine, setup, instance, from, final, again, init, traces[..|traces| - 1]);
      if !IsOn(last, all) {
        KeptCaseRunsAgain(engine, setup, instance, from, final, again, last, trace);
        var before := CasesOf(setup, all, Surviving(init, all));
        var cases := CasesOf(setup, all, Surviving(scenarios, all));
        assert cases == before + [CaseOf(setup, all, last)];
        assert cases[..|cases| - 1] == before;
        CaseIsNamed(setup, all, last);
        assert trace == CaseTrace(ScenarioName(last), trace.trace);
      } else {
        assert Surviving(scenarios, all) == Surviving(init, all);
        assert Remaining(scenarios, traces, all) == Remaining(init, traces[..|traces| - 1], all);
      }
    }
  }

  lemma CaseIsNamed(setup: Setup, absent: set<string>, s: Scenario)
    ensures CaseOf(setup, absent, s).name == ScenarioName(s)
  {
  }

  lemma {:induction false} KeptAll<T>(traces: seq<CaseTrace<T>>, names: set<string>)
    requires forall i | 0 <= i < |traces| :: traces[i].name in names
    ensures Kept(traces, names) == traces
  {
    if |traces| != 0 { KeptAll(traces[..|traces| - 1], names); }
  }

  /** What a finished run knows: each trace belongs to its scenario, and every kept one has a kept name. */
  lemma RunIsNamed<T>(engine: Engine<T>, setup: Setup, recorded: seq<string>)
    requires ProbeAll(engine, setup, CasesFor(setup, Elems(recorded)), recorded).result.Ok?
    ensures
      var run := ProbeAll(engine, setup, CasesFor(setup, Elems(recorded)), recorded);
      var (scenarios, traces) := (ScenariosFor(setup, Elems(recorded)), run.result.value);
      && recorded <= run.absent && Elems(recorded) <= Elems(run.absent) && |traces| == |scenarios|
      && forall i | 0 <= i < |scenarios| ::
           && RanWithPrefix(engine, setup, CaseOf(setup, Elems(recorded), scenarios[i]), traces[i], run.absent,
               |recorded|)
           && traces[i].name == ScenarioName(scenarios[i])
           && (!IsOn(scenarios[i], Elems(run.absent)) ==> traces[i].name in ScenarioNames(setup, Elems(run.absent)))
  {
    hide CaseOf, Execute, RanWithPrefix, ScenarioName, ScenarioNames, ProbeAll, IsOn, PointScenarios;
    var some := Elems(recorded);
    var (scenarios, cases) := (ScenariosFor(setup, some), CasesFor(setup, some));
    var run := ProbeAll(engine, setup, cases, recorded);
    LearningIsBounded(engine, setup, cases, recorded);
    assert some <= Elems(run.absent) by {
      assert forall k | 0 <= k < |recorded| :: recorded[k] == run.absent[k] && recorded[k] in run.absent;
    }
    forall i | 0 <= i < |scenarios|
      ensures run.result.value[i].name == ScenarioName(scenarios[i])
      ensures !IsOn(scenarios[i], Elems(run.absent)) ==>
        run.result.value[i].name in ScenarioNames(setup, Elems(run.absent))
    {
      CaseIsNamed(setup, some, scenarios[i]);
      TraceIsNamed(engine, setup, cases[i], run.result.value[i], run.absent, |recorded|);
      if !IsOn(scenarios[i], Elems(run.absent)) { NameOfKept(setup, some, Elems(run.absent), scenarios[i]); }
    }
  }

  /** What a finished run leaves recorded: what was recorded before and every point the instance
      lacks, whichever of them the engine names first. */
  ghost function Absences(setup: Setup, recorded: seq<string>, instance: set<string>): set<string> {
    Elems(recorded) + (Elems(setup.points) - instance)
  }

  lemma RecordedAbsences<T(!new)>(engine: Engine<T>, setup: Setup, instance: set<string>, recorded: seq<string>)
    requires Honest(engine, instance) && Envelope(engine, setup, recorded).Ok?
    ensures Elems(Envelope(engine, setup, recorded).value.absentInputs) == Absences(setup, recorded, instance)
  {
    hide CaseOf, Execute, ProbeCase, RanWithPrefix, ScenarioName, ScenarioNames, ProbeAll, Kept, IsOn, NamesPoints;
    var some := Elems(recorded);
    var cases := CasesFor(setup, some);
    var run := ProbeAll(engine, setup, cases, recorded);
    RunIsNamed(engine, setup, recorded);
    NominalNamesAll(engine, setup, some, run.result.value[0], run.absent, |recorded|, instance);
    CasesNamePoints(setup, some);
    RunLearnsAbsentees(engine, setup, cases, recorded, instance);
    SortedIsSorted(Elems(run.absent));
    forall name | name in run.absent ensures name in Absences(setup, recorded, instance) {
      var k :| 0 <= k < |run.absent| && run.absent[k] == name;
      if k < |recorded| { assert recorded[k] == name; }
    }
  }

  /** Retaining reaches a fixed point at once: with an engine whose instance has a fixed set of
      inputs, retaining again from the recorded absences learns nothing, runs exactly the surviving
      scenarios, and writes the same reference iff no dropped scenario bears a kept one's name. */
  lemma RetainedReferenceIsSettled<T(!new)>(engine: Engine<T>, setup: Setup, instance: set<string>,
      recorded: seq<string>)
    requires Honest(engine, instance) && Envelope(engine, setup, recorded).Ok?
    ensures
      var r := Envelope(engine, setup, recorded);
      var again := Envelope(engine, setup, r.value.absentInputs);
      && again.Ok? && again.value.absentInputs == r.value.absentInputs
      && (again == r <==> NamesTell(setup, Elems(recorded), Absences(setup, recorded, instance)))
  {
    hide CaseOf, Execute, ProbeCase, RanWithPrefix, ScenarioName, ScenarioNames, ProbeAll, Kept, Remaining, IsOn;
    hide NamesPoints;
    var some := Elems(recorded);
    var (scenarios, cases) := (ScenariosFor(setup, some), CasesFor(setup, some));
    var run := ProbeAll(engine, setup, cases, recorded);
    var (traces, final, all) := (run.result.value, run.absent, Elems(run.absent));
    var (again, names) := (Sorted(all), ScenarioNames(setup, all));
    RunIsNamed(engine, setup, recorded);
    CasesNamePoints(setup, some);
    RunLearnsAbsentees(engine, setup, cases, recorded, instance);
    RecordedAbsences(engine, setup, instance, recorded);
    FinalAbsentIsPublic(engine, setup, cases, recorded);
    SortedIsSorted(all);
    assert Elems(again) == all;
    RemainingRunAgain(engine, setup, instance, recorded, final, again, scenarios, traces);
    ScenariosWithout(setup, some, all);
    KeptIsRemaining(scenarios, traces, all, names);
    RemainingAreNamed(scenarios, traces, all, names);
    DroppedNames(setup, some, all, traces);
    if all == {} {
      forall i | 0 <= i < |scenarios| ensures !IsOn(scenarios[i], all) { NotOnNothing(scenarios[i]); }
      KeptAll(traces, names);
    }
  }

  lemma DroppedNames<T>(setup: Setup, some: set<string>, all: set<string>, traces: seq<CaseTrace<T>>)
    requires |traces| == |ScenariosFor(setup, some)|
    requires forall i | 0 <= i < |traces| :: traces[i].name == ScenarioName(ScenariosFor(setup, some)[i])
    ensures NamesTell(setup, some, all) <==>
      forall i | 0 <= i < |traces|
          && IsOn(ScenariosFor(setup, some)[i], all) :: traces[i].name !in ScenarioNames(setup, all)
  {
    var scenarios := ScenariosFor(setup, some);
    hide ScenariosFor, IsOn, ScenarioName, ScenarioNames;
    if forall i | 0 <= i < |traces| && IsOn(scenarios[i], all) :: traces[i].name !in ScenarioNames(setup, all) {
      forall s | s in scenarios && IsOn(s, all) ensures ScenarioName(s) !in ScenarioNames(setup, all) {
        var i :| 0 <= i < |scenarios| && scenarios[i] == s;
        assert traces[i].name == ScenarioName(s);
      }
    }
  }

  lemma TraceIsNamed<T>(engine: Engine<T>, setup: Setup, c: Case, trace: CaseTrace<T>, absent: seq<string>, from: nat)
    requires RanWithPrefix(engine, setup, c, trace, absent, from)
    ensures trace.name == c.name
  {
  }

  lemma NotOnNothing(s: Scenario)
    ensures !IsOn(s, {})
  {
  }

  // ---------------------------------------------------------------- a reference that does not settle

  ghost function SomeName(samples: seq<Sample>): (name: string)
    requires !OnlyNames(samples, {})
    ensures Names(samples, name)
  {
    var k :| 0 <= k < |samples| && !(samples[k].inputs.Keys <= {});
    var name :| name in samples[k].inputs;
    name
  }

  /** The engine of an instance without inputs. */
  ghost function Bare(): Engine<nat> {
    samples => if OnlyNames(samples, {}) then Ran(true, 0) else UnknownInput(SomeName(samples))
  }

  /** One point, moved once, and an event that bears the name of that move's scenario. */
  ghost function SameNames(): Setup {
    Setup({"a"}, {}, ["a"], name => Float(0.0), point => [Move("high", Float(1.0))],
      [AnyEvent("a" + " " + "high", 1, map[])])
  }

  function HighMove(): Scenario {
    Moved("a", Move("high", Float(1.0)))
  }

  lemma SameNamesCases()
    ensures ScenariosFor(SameNames(), {}) == [Nominal, HighMove(), Stepped(SameNames().events[0])]
  {
    var setup := SameNames();
    assert setup.points[..0] == [];
    assert PointScenarios(setup, [], {}) == [];
    assert setup.moves("a") == [Move("high", Float(1.0))] && setup.points[|setup.points| - 1] == "a";
    assert MovesOf(setup, "a") == [HighMove()];
    assert PointScenarios(setup, setup.points, {}) == [] + [HighMove()];
    var steps := seq(|setup.events|, k requires 0 <= k < |setup.events| => Stepped(setup.events[k]));
    assert steps == [Stepped(setup.events[0])];
    assert [Nominal] + [HighMove()] + steps == [Nominal, HighMove(), Stepped(setup.events[0])];
  }

  lemma WithoutPoint(c: Case)
    requires NamesPoints(SameNames(), c)
    ensures OnlyNames(SamplesOf(SameNames(), c, ["a"]), {})
  {
    var setup := SameNames();
    var samples := SamplesOf(setup, c, ["a"]);
    assert OnlyNames(samples, Elems(setup.points));
    assert Elems(["a"]) == {"a"};
    DroppingCommutes(Restate, c, {"a"}, setup.integers);
    forall k | 0 <= k < |samples| ensures samples[k].inputs.Keys <= {} {
      assert "a" !in samples[k].inputs;
    }
  }

  lemma BareRuns(c: Case)
    requires NamesPoints(SameNames(), c)
    ensures
      var p := ProbeCase(Bare(), SameNames(), c, ["a"]);
      p.result.Ok? && p.absent == ["a"]
  {
    WithoutPoint(c);
    assert Elems(["a"]) == {"a"};
    var timeline := Without(c, {"a"}).timeline;
    if |timeline| != 0 { RowCount(Restate, timeline, SameNames().integers); }
    assert |SamplesOf(SameNames(), c, ["a"])| > 0;
    hide SamplesOf;
  }

  lemma BareNamesPoint()
    ensures
      var samples := SamplesOf(SameNames(), CaseOf(SameNames(), {}, Nominal), []);
      Execute(Bare(), {"a"}, samples, []) == UnknownInput("a")
  {
    var setup := SameNames();
    var c := CaseOf(setup, {}, Nominal);
    var samples := SamplesOf(setup, c, []);
    CaseNamesPoints(setup, {}, Nominal);
    assert OnlyNames(samples, Elems(setup.points));
    NominalSample(setup, {}, []);
    hide SamplesOf, CaseOf;
    assert Elems<string>([]) == {} && Elems(setup.points) == {"a"};
    assert Names(samples, SomeName(samples));
  }

  lemma BareLearns(c: Case)
    requires c == CaseOf(SameNames(), {}, Nominal)
    ensures
      var p := ProbeCase(Bare(), SameNames(), c, []);
      p.result.Ok? && p.absent == ["a"]
  {
    BareNamesPoint();
    CaseNamesPoints(SameNames(), {}, Nominal);
    assert [] + ["a"] == ["a"] && SameNames().public == {"a"};
    hide Execute, SamplesOf, CaseOf, NamesPoints;
    BareRuns(c);
  }

  lemma {:induction false} BareRunsAll(cases: seq<Case>)
    requires |cases| > 0 && cases[0] == CaseOf(SameNames(), {}, Nominal)
    requires forall k | 0 <= k < |cases| :: NamesPoints(SameNames(), cases[k])
    ensures
      var run := ProbeAll(Bare(), SameNames(), cases, []);
      run.result.Ok? && run.absent == ["a"]
  {
    var init := cases[..|cases| - 1];
    hide CaseOf, ProbeCase, NamesPoints;
    if |init| == 0 {
      BareLearns(cases[0]);
    } else {
      BareRunsAll(init);
      BareRuns(cases[|cases| - 1]);
    }
  }

  lemma SameNamesRetained()
    ensures Honest(Bare(), {}) && Envelope(Bare(), SameNames(), []).Ok?
  {
    forall samples ensures HonestOn(Bare(), {}, samples) { }
    CasesNamePoints(SameNames(), {});
    assert Elems<string>([]) == {};
    hide CaseOf, ProbeCase, NamesPoints, Honest, SameNames, Bare;
    BareRunsAll(CasesFor(SameNames(), {}));
  }

  lemma SameNamesDoNotTell()
    ensures !NamesTell(SameNames(), {}, {"a"})
  {
    var (setup, scenarios) := (SameNames(), ScenariosFor(SameNames(), {}));
    SameNamesCases();
    assert scenarios[1] in scenarios && scenarios[2] in scenarios;
    NameOfKept(setup, {}, {"a"}, scenarios[2]);
    assert IsOn(scenarios[1], {"a"}) && ScenarioName(scenarios[1]) == ScenarioName(scenarios[2]);
  }

  lemma SameNamesAbsences()
    ensures Absences(SameNames(), [], {}) == {"a"} && Elems<string>([]) == {}
  {
    assert Elems(["a"]) == {"a"};
  }

  /** A dropped scenario that bears a kept one's name is written the first time and not the second. */
  lemma UnsettledReference()
    ensures
      var r := Envelope(Bare(), SameNames(), []);
      && Honest(Bare(), {}) && r.Ok? && Envelope(Bare(), SameNames(), r.value.absentInputs) != r
  {
    hide *;
    SameNamesRetained();
    SameNamesDoNotTell();
    SameNamesAbsences();
    RetainedReferenceIsSettled(Bare(), SameNames(), {}, []);
  }
}
