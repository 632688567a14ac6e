/** What the engine is stepped on: the scenarios of a configuration and the rows of each. */
module Scenarios {
  import opened Folds
  import opened Sampling
  import opened AbsentInputs

  // ---------------------------------------------------------------- which scenarios

  /** Exactly the nominal point, the moves of the points present, and the events. */
  lemma ScenariosAre(setup: Setup, absent: set<string>, s: Scenario)
    ensures s in ScenariosFor(setup, absent) <==> match s
      case Nominal => true
      case Moved(point, move) => point in setup.points && point !in absent && move in setup.moves(point)
      case Stepped(event) => event in setup.events
  {
    var points := PointScenarios(setup, setup.points, absent);
    var steps := seq(|setup.events|, k requires 0 <= k < |setup.events| => Stepped(setup.events[k]));
    assert ScenariosFor(setup, absent) == [Nominal] + points + steps;
    MovesAre(setup, setup.points, absent, s);
    match s
    case Nominal =>
    case Moved(point, move) =>
    case Stepped(event) =>
      if event in setup.events {
        var k :| 0 <= k < |setup.events| && setup.events[k] == event;
        assert steps[k] == s;
      }
  }

  lemma {:induction false} MovesAre(setup: Setup, points: seq<string>, absent: set<string>, s: Scenario)
    ensures s in PointScenarios(setup, points, absent) <==>
      s.Moved? && s.point in points && s.point !in absent && s.move in setup.moves(s.point)
  {
    if |points| != 0 {
      var (init, point) := (points[..|points| - 1], points[|points| - 1]);
      MovesAre(setup, init, absent, s);
      assert points == init + [point];
      var moves := setup.moves(point);
      if s.Moved? && s.point == point && s.move in moves {
        var k :| 0 <= k < |moves| && moves[k] == s.move;
        assert MovesOf(setup, point)[k] == s;
      }
    }
  }

  /** Their order: the nominal point first, then moves in interface order, then the events in theirs. */
  lemma ScenariosInOrder(setup: Setup, absent: set<string>)
    ensures
      var (scenarios, n) := (ScenariosFor(setup, absent), |setup.events|);
      && |scenarios| > n && scenarios[0] == Nominal
      && (forall k | 0 <= k < n :: scenarios[|scenarios| - n + k] == Stepped(setup.events[k]))
      && AllInOrder(setup, setup.points, scenarios[1..|scenarios| - n])
  {
    MovesKeepOrder(setup, setup.points, absent);
    var (scenarios, n) := (ScenariosFor(setup, absent), |setup.events|);
    assert scenarios[1..|scenarios| - n] == PointScenarios(setup, setup.points, absent);
  }

  ghost predicate AllInOrder(setup: Setup, points: seq<string>, moves: seq<Scenario>) {
    forall i, j | 0 <= i < j < |moves| :: MovesInOrder(setup, points, moves[i], moves[j])
  }

  /** Two moves: of an earlier point and a later one, or an earlier and a later move of one point. */
  ghost predicate MovesInOrder(setup: Setup, points: seq<string>, a: Scenario, b: Scenario) {
    && a.Moved? && b.Moved?
    && exists p, q | 0 <= p <= q < |points| ::
         points[p] == a.point && points[q] == b.point && (p == q ==> IsBefore(setup.moves(points[p]), a.move, b.move))
  }

  ghost predicate IsBefore<T(!new)>(list: seq<T>, a: T, b: T) {
    exists i, j :: 0 <= i < j < |list| && list[i] == a && list[j] == b
  }

  lemma {:induction false} MovesKeepOrder(setup: Setup, points: seq<string>, absent: set<string>)
    ensures AllInOrder(setup, points, PointScenarios(setup, points, absent))
  {
    if |points| != 0 {
      var n := |points| - 1;
      var (before, all) := (PointScenarios(setup, points[..n], absent), PointScenarios(setup, points, absent));
      MovesKeepOrder(setup, points[..n], absent);
      forall i, j | 0 <= i < j < |all| ensures MovesInOrder(setup, points, all[i], all[j]) {
        if j < |before| {
          MovesInPrefix(setup, points, n, before[i], before[j]);
        } else if i < |before| {
          MovesAre(setup, points[..n], absent, before[i]);
          assert before[i] in before;
          var p :| 0 <= p < n && points[..n][p] == before[i].point;
          assert points[p] == all[i].point && points[n] == all[j].point;
        } else {
          var moves := setup.moves(points[n]);
          var (a, b) := (i - |before|, j - |before|);
          assert all[i] == Moved(points[n], moves[a]) && all[j] == Moved(points[n], moves[b]);
          assert IsBefore(moves, moves[a], moves[b]);
        }
      }
    }
  }

  lemma MovesInPrefix(setup: Setup, points: seq<string>, n: nat, a: Scenario, b: Scenario)
    requires n <= |points| && MovesInOrder(setup, points[..n], a, b)
    ensures MovesInOrder(setup, points, a, b)
  {
    var p, q :| 0 <= p <= q < n && points[..n][p] == a.point && points[..n][q] == b.point
      && (p == q ==> IsBefore(setup.moves(points[..n][p]), a.move, b.move));
    assert points[p] == a.point && points[q] == b.point;
  }

  // ---------------------------------------------------------------- the rows of a scenario

  /** The value a scenario gives an input at row `j` of its grid. A step scenario changes what its
      event names after the event's scan; a move holds throughout. */
  function ValueAt(setup: Setup, s: Scenario, j: nat, name: string): Value {
    match s
    case Nominal => setup.nominal(name)
    case Moved(point, move) => if name == point then move.value else setup.nominal(name)
    case Stepped(event) =>
      if j > event.atScan && name in event.changes then event.changes[name] else setup.nominal(name)
  }

  /** An input the interface declares as an integer is cut off toward zero. */
  ghost predicate IsCast(value: Value, integer: bool, cast: Value) {
    if integer && value.Float? then
      cast.Integer? && if value.x >= 0.0 then cast.n as real <= value.x < (cast.n + 1) as real
                       else (cast.n - 1) as real < value.x <= cast.n as real
    else cast == value
  }

  lemma CastIs(value: Value, integer: bool)
    ensures IsCast(value, integer, CastValue(value, integer))
  {
  }

  /** The row a scenario has at scan `j`, when the inputs in `gone` are left out. */
  ghost predicate IsRow(setup: Setup, s: Scenario, gone: set<string>, j: nat, row: Sample) {
    && row.time == j as real * 60.0
    && (forall name :: name in row.inputs <==> name in setup.points && name !in gone)
    && forall name | name in row.inputs ::
         IsCast(ValueAt(setup, s, j, name), name in setup.integers, row.inputs[name])
  }

  lemma CastRow(setup: Setup, s: Scenario, gone: set<string>, j: nat, row: Sample, inputs: Inputs)
    requires row == Sample(j as real * 60.0, Cast(inputs, setup.integers))
    requires forall name :: name in inputs <==> name in setup.points && name !in gone
    requires forall name | name in inputs :: inputs[name] == ValueAt(setup, s, j, name)
    ensures IsRow(setup, s, gone, j, row)
  {
    forall name | name in row.inputs
      ensures IsCast(ValueAt(setup, s, j, name), name in setup.integers, row.inputs[name])
    {
      CastIs(inputs[name], name in setup.integers);
    }
  }

  lemma FlatRows(setup: Setup, some: set<string>, s: Scenario, absent: seq<string>)
    requires s.Nominal? || (s.Moved? && s.point in setup.points && s.point !in some)
    ensures
      var rows := SamplesOf(setup, CaseOf(setup, some, s), absent);
      |rows| == 46 && forall j | 0 <= j < 46 :: IsRow(setup, s, some + Elems(absent), j, rows[j])
  {
    var c := Without(CaseOf(setup, some, s), Elems(absent));
    var rows := SamplesOf(setup, CaseOf(setup, some, s), absent);
    forall j | 0 <= j < 46 ensures IsRow(setup, s, some + Elems(absent), j, rows[j]) {
      assert rows[j] == Sample(j as real * 60.0, Cast(c.inputs, setup.integers));
      hide Cast;
      CastRow(setup, s, some + Elems(absent), j, rows[j], c.inputs);
    }
  }

  lemma TwoPhases(before: Phase, after: Phase, integers: set<string>, j: nat)
    requires before.step == after.step == 60.0 && j <= before.repeat + after.repeat
    ensures
      var rows := Rows(Restate, [before, after], integers);
      && |rows| == 1 + before.repeat + after.repeat
      && rows[j] == Sample(j as real * 60.0, Cast(if j <= before.repeat then before.inputs else after.inputs, integers))
  {
    var timeline := [before, after];
    assert Init(timeline) == [before] && Init([before]) == [];
    hide Cast;
    var first := Rows(Restate, [before], integers);
    assert first == [Sample(0.0, Cast(before.inputs, integers))]
      + Steady(0.0, before.step, before.repeat, Cast(before.inputs, integers));
    assert Rows(Restate, timeline, integers)
        == first + Steady(Clock([before]), after.step, after.repeat, Cast(after.inputs, integers));
    assert Clock([before]) == before.repeat as real * 60.0;
  }

  lemma StepRows(setup: Setup, some: set<string>, event: Event, absent: seq<string>)
    ensures
      var s := Stepped(event);
      var rows := SamplesOf(setup, CaseOf(setup, some, s), absent);
      |rows| == 46 && forall j | 0 <= j < 46 :: IsRow(setup, s, some + Elems(absent), j, rows[j])
  {
    var s := Stepped(event);
    var timeline := Without(CaseOf(setup, some, s), Elems(absent)).timeline;
    var rows := SamplesOf(setup, CaseOf(setup, some, s), absent);
    var (before, after) := (timeline[0], timeline[1]);
    assert timeline == [before, after];
    assert before.repeat == event.atScan && after.repeat == 45 - event.atScan;
    TwoPhases(before, after, setup.integers, 0);
    forall j | 0 <= j < 46 ensures IsRow(setup, s, some + Elems(absent), j, rows[j]) {
      TwoPhases(before, after, setup.integers, j);
      hide Cast, Rows;
      CastRow(setup, s, some + Elems(absent), j, rows[j], if j <= event.atScan then before.inputs else after.inputs);
    }
  }

  /** What the engine is given for each scenario: 46 rows a minute apart, naming exactly the points
      that are present, each at the scenario's value for that row. */
  lemma ScenarioRows(setup: Setup, some: set<string>, k: nat, absent: seq<string>)
    requires k < |ScenariosFor(setup, some)|
    ensures
      var (s, c) := (ScenariosFor(setup, some)[k], CasesFor(setup, some)[k]);
      var rows := SamplesOf(setup, c, absent);
      && |rows| == 46
      && (forall j | 0 <= j < 46 :: IsRow(setup, s, some + Elems(absent), j, rows[j]))
      && c.name == match s
           case Nominal => "nominal"
           case Moved(point, move) => point + " " + move.tag
           case Stepped(event) => event.name
  {
    var s := ScenariosFor(setup, some)[k];
    ScenariosAre(setup, some, s);
    hide IsRow, SamplesOf;
    match s
    case Stepped(event) => StepRows(setup, some, event, absent);
    case _ => FlatRows(setup, some, s, absent);
  }

  // ---------------------------------------------------------------- the calls of one case

  /** The engine itself is asked iff the samples and the absences name public inputs only and the
      first sample, with the absences, covers them all; otherwise the call fails. */
  lemma ExecuteAsks<T>(engine: Engine<T>, public: set<string>, samples: seq<Sample>, absent: seq<string>)
    ensures
      if (forall k, name | 0 <= k < |samples| && name in samples[k].inputs :: name in public)
          && (forall name | name in absent :: name in public)
          && |samples| > 0 && (forall name | name in public :: name in samples[0].inputs || name in absent)
      then Execute(engine, public, samples, absent) == engine(samples)
      else Execute(engine, public, samples, absent).Failed?
  {
    if OnlyNames(samples, public) {
      forall k, name | 0 <= k < |samples| && name in samples[k].inputs ensures name in public {
        assert samples[k].inputs.Keys <= public;
      }
    }
  }

  /** Call `k` of a case: with the first `k` of the absences known. */
  function Call<T>(engine: Engine<T>, setup: Setup, c: Case, absent: seq<string>, k: nat): Outcome<T>
    requires k <= |absent|
  {
    Execute(engine, setup.public, SamplesOf(setup, c, absent[..k]), absent[..k])
  }

  /** The call named an input that was not known to be absent, while no more than 32 were; it is
      absence `k`. */
  ghost predicate Learns<T>(engine: Engine<T>, setup: Setup, c: Case, absent: seq<string>, k: nat)
    requires k < |absent|
  {
    Call(engine, setup, c, absent, k) == UnknownInput(absent[k]) && absent[k] !in absent[..k] && k <= 32
  }

  /** One case, call by call: every call but the last names a new absence, and the last one gives
      the trace, or fails, or names an input that is known or one too many. */
  ghost predicate IsProbe<T>(engine: Engine<T>, setup: Setup, c: Case, absent: seq<string>, p: Probe<T>) {
    && absent <= p.absent && p.calls == 1 + |p.absent| - |absent|
    && (forall k | |absent| <= k < |p.absent| :: Learns(engine, setup, c, p.absent, k))
    && match Call(engine, setup, c, p.absent, |p.absent|)
       case Ran(open, trace) => p.result == if open then Ok(trace) else Err("not an independent reference")
       case Failed(reason) => p.result == Err(reason)
       case UnknownInput(name) =>
         (name in p.absent || |p.absent| > 32) && p.result == Err("unknown scenario input: " + name)
  }

  lemma {:induction false} CaseIsProbed<T>(engine: Engine<T>, setup: Setup, c: Case, absent: seq<string>)
    ensures IsProbe(engine, setup, c, absent, ProbeCase(engine, setup, c, absent))
    decreases MOST_ABSENT + 1 - |absent|
  {
    hide Execute, SamplesOf;
    assert absent[..|absent|] == absent;
    match Execute(engine, setup.public, SamplesOf(setup, c, absent), absent)
    case UnknownInput(name) =>
      if name !in absent && |absent| <= MOST_ABSENT {
        CaseIsProbed(engine, setup, c, absent + [name]);
        var p := ProbeCase(engine, setup, c, absent);
        assert p.absent[..|absent|] == absent && p.absent[|absent|] == name;
        assert Learns(engine, setup, c, p.absent, |absent|);
      }
    case _ =>
  }

  /** No other outcome is one. */
  lemma ProbeIsUnique<T>(engine: Engine<T>, setup: Setup, c: Case, absent: seq<string>, p: Probe<T>, q: Probe<T>)
    requires IsProbe(engine, setup, c, absent, p) && IsProbe(engine, setup, c, absent, q)
    ensures p == q
  {
    hide Execute, SamplesOf;
    ProbesBeginAlike(engine, setup, c, absent, p, q, if |p.absent| <= |q.absent| then |p.absent| else |q.absent|);
    if |p.absent| < |q.absent| {
      StopsThere(engine, setup, c, absent, p, q);
    } else if |q.absent| < |p.absent| {
      StopsThere(engine, setup, c, absent, q, p);
    } else {
      assert p.absent[..|p.absent|] == p.absent && q.absent[..|p.absent|] == q.absent;
    }
  }

  lemma {:induction false} ProbesBeginAlike<T>(engine: Engine<T>, setup: Setup, c: Case, absent: seq<string>,
      p: Probe<T>, q: Probe<T>, n: nat)
    requires IsProbe(engine, setup, c, absent, p) && IsProbe(engine, setup, c, absent, q)
    requires |absent| <= n <= |p.absent| && n <= |q.absent|
    ensures p.absent[..n] == q.absent[..n]
    decreases n
  {
    hide Execute, SamplesOf;
    if n == |absent| {
      assert p.absent[..n] == absent == q.absent[..n];
    } else {
      ProbesBeginAlike(engine, setup, c, absent, p, q, n - 1);
      assert Learns(engine, setup, c, p.absent, n - 1) && Learns(engine, setup, c, q.absent, n - 1);
      assert p.absent[..n] == p.absent[..n - 1] + [p.absent[n - 1]];
      assert q.absent[..n] == q.absent[..n - 1] + [q.absent[n - 1]];
    }
  }

  lemma CallNames<T>(engine: Engine<T>, setup: Setup, c: Case, absent: seq<string>, p: Probe<T>, k: nat)
    requires IsProbe(engine, setup, c, absent, p) && |absent| <= k < |p.absent|
    ensures Call(engine, setup, c, p.absent, k) == UnknownInput(p.absent[k])
    ensures p.absent[k] !in p.absent[..k] && k <= 32
  {
    assert Learns(engine, setup, c, p.absent, k);
  }

  lemma StopsThere<T>(engine: Engine<T>, setup: Setup, c: Case, absent: seq<string>, p: Probe<T>, q: Probe<T>)
    requires IsProbe(engine, setup, c, absent, p) && IsProbe(engine, setup, c, absent, q)
    requires q.absent[..if |p.absent| <= |q.absent| then |p.absent| else |q.absent|]
          == p.absent[..if |p.absent| <= |q.absent| then |p.absent| else |q.absent|]
    ensures |q.absent| <= |p.absent|
  {
    hide Execute, SamplesOf;
    var n := |p.absent|;
    if n < |q.absent| {
      assert p.absent[..n] == p.absent;
      CallNames(engine, setup, c, absent, q, n);
    }
  }
}
