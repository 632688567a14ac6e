/** Running a configuration's scenarios through the engine, learning which interface inputs its
    instance does not have. */
module AbsentInputs {
  import opened Folds
  import opened Text
  import opened Sampling

  datatype Result<+T> = Ok(value: T) | Err(reason: string)

  /** One engine call: a trace (by the Open Control Engine or by the fallback interpreter), an
      input the instance does not have, or any other failure. */
  datatype Outcome<+T> = Ran(open: bool, trace: T) | UnknownInput(name: string) | Failed(reason: string)

  type Engine<!T> = seq<Sample> -> Outcome<T>

  ghost predicate Names(samples: seq<Sample>, name: string) {
    exists k | 0 <= k < |samples| :: name in samples[k].inputs
  }

  predicate OnlyNames(samples: seq<Sample>, names: set<string>) {
    forall k | 0 <= k < |samples| :: samples[k].inputs.Keys <= names
  }

  /** The library's entry point: the samples name public inputs only, so do the declared absences,
      and the first sample initialises every other public input. */
  function Execute<T>(engine: Engine<T>, public: set<string>, samples: seq<Sample>, absent: seq<string>): Outcome<T> {
    if !OnlyNames(samples, public) then Failed("non-public controller inputs")
    else if !(Elems(absent) <= public) then Failed("absent_inputs are not public inputs")
    else if |samples| == 0 || !(public <= samples[0].inputs.Keys + Elems(absent))
    then Failed("first sample must initialize every public controller input")
    else engine(samples)
  }

  /** The interface of one configuration and the values its scenarios move. */
  datatype Setup = Setup(
    public: set<string>, integers: set<string>, points: seq<string>,
    nominal: string -> Value, moves: string -> seq<Move>, events: seq<Event>)

  datatype Move = Move(tag: string, value: Value)

  const SCANS: nat := 45
  const SCAN_SECONDS := 60.0

  datatype AnyEvent = AnyEvent(name: string, atScan: nat, changes: Inputs)

  /** A step scenario changes between scans. */
  type Event = e: AnyEvent | 0 < e.atScan < SCANS witness AnyEvent("", 1, map[])

  // ---------------------------------------------------------------- scenarios

  datatype Scenario = Nominal | Moved(point: string, move: Move) | Stepped(event: Event)

  function ScenarioName(s: Scenario): string {
    match s
    case Nominal => "nominal"
    case Moved(point, move) => point + " " + move.tag
    case Stepped(event) => event.name
  }

  function MovesOf(setup: Setup, point: string): seq<Scenario> {
    var moves := setup.moves(point);
    seq(|moves|, k requires 0 <= k < |moves| => Moved(point, moves[k]))
  }

  function PointScenarios(setup: Setup, points: seq<string>, absent: set<string>): seq<Scenario> {
    if |points| == 0 then []
    else
      var point := points[|points| - 1];
      PointScenarios(setup, points[..|points| - 1], absent) + if point in absent then [] else MovesOf(setup, point)
  }

  /** The nominal point, one scenario per move of each input present, then the step scenarios. */
  function ScenariosFor(setup: Setup, absent: set<string>): seq<Scenario> {
    [Nominal] + PointScenarios(setup, setup.points, absent)
    + seq(|setup.events|, k requires 0 <= k < |setup.events| => Stepped(setup.events[k]))
  }

  function NominalInputs(setup: Setup, absent: set<string>): Inputs {
    map name | name in setup.points && name !in absent :: setup.nominal(name)
  }

  function CaseOf(setup: Setup, absent: set<string>, s: Scenario): Case {
    var nominal := NominalInputs(setup, absent);
    match s
    case Nominal => Case(ScenarioName(s), nominal, SCANS, SCAN_SECONDS, [])
    case Moved(point, move) => Case(ScenarioName(s), nominal[point := move.value], SCANS, SCAN_SECONDS, [])
    case Stepped(event) =>
      var after := nominal + (map name | name in event.changes && name in nominal :: event.changes[name]);
      Case(event.name, map[], 1, 1.0,
           [Phase(nominal, event.atScan, SCAN_SECONDS), Phase(after, SCANS - event.atScan, SCAN_SECONDS)])
  }

  // ---------------------------------------------------------------- the learning loop

  datatype CaseTrace<T> = CaseTrace(name: string, trace: T)

  /** What probing one case (or all of them) ends with: a result, the absent list, the engine calls. */
  datatype Probe<T> = Probe(result: Result<T>, absent: seq<string>, calls: nat)

  function SamplesOf(setup: Setup, c: Case, absent: seq<string>): seq<Sample> {
    Samples(Restate, Without(c, Elems(absent)), setup.integers)
  }

  const MOST_ABSENT: nat := 32

  /** Run one case, dropping each input the engine names until it runs or fails otherwise. */
  function ProbeCase<T>(engine: Engine<T>, setup: Setup, c: Case, absent: seq<string>): Probe<T>
    decreases MOST_ABSENT + 1 - |absent|
  {
    match Execute(engine, setup.public, SamplesOf(setup, c, absent), absent)
    case Failed(reason) => Probe(Err(reason), absent, 1)
    case Ran(open, trace) =>
      Probe(if open then Ok(trace) else Err("not an independent reference"), absent, 1)
    case UnknownInput(name) =>
      if name in absent || |absent| > MOST_ABSENT then Probe(Err("unknown scenario input: " + name), absent, 1)
      else
        var rest := ProbeCase(engine, setup, c, absent + [name]);
        rest.(calls := rest.calls + 1)
  }

  function ProbeAll<T>(engine: Engine<T>, setup: Setup, cases: seq<Case>,
      absent: seq<string>): Probe<seq<CaseTrace<T>>> {
    if |cases| == 0 then Probe(Ok([]), absent, 0)
    else
      var before := ProbeAll(engine, setup, cases[..|cases| - 1], absent);
      match before.result
      case Err(reason) => Probe(Err(reason), before.absent, before.calls)
      case Ok(traces) =>
        var c := cases[|cases| - 1];
        var last := ProbeCase(engine, setup, c, before.absent);
        Probe(match last.result
                case Err(reason) => Err(reason)
                case Ok(trace) => Ok(traces + [CaseTrace(c.name, trace)]),
              last.absent, before.calls + last.calls)
  }

  datatype Reference<T> = Reference(absentInputs: seq<string>, cases: seq<CaseTrace<T>>)

  function CasesOf(setup: Setup, absent: set<string>, scenarios: seq<Scenario>): seq<Case> {
    seq(|scenarios|, k requires 0 <= k < |scenarios| => CaseOf(setup, absent, scenarios[k]))
  }

  function CasesFor(setup: Setup, absent: set<string>): seq<Case> {
    CasesOf(setup, absent, ScenariosFor(setup, absent))
  }

  function ScenarioNames(setup: Setup, absent: set<string>): set<string> {
    set s | s in ScenariosFor(setup, absent) :: ScenarioName(s)
  }

  function Kept<T>(traces: seq<CaseTrace<T>>, names: set<string>): seq<CaseTrace<T>> {
    if |traces| == 0 then []
    else
      var last := traces[|traces| - 1];
      Kept(traces[..|traces| - 1], names) + if last.name in names then [last] else []
  }

  /** What the retained reference of a configuration becomes, given the absences recorded before. */
  function Envelope<T>(engine: Engine<T>, setup: Setup, recorded: seq<string>): Result<Reference<T>> {
    var run := ProbeAll(engine, setup, CasesFor(setup, Elems(recorded)), recorded);
    match run.result
    case Err(reason) => Err(reason)
    case Ok(traces) =>
      var absent := Elems(run.absent);
      Ok(Reference(Sorted(absent), if absent == {} then traces else Kept(traces, ScenarioNames(setup, absent))))
  }

  /** The script's loops. */
  method ReferenceEnvelope<T>(engine: Engine<T>, setup: Setup, recorded: seq<string>)
    returns (r: Result<Reference<T>>, calls: nat)
    ensures r == Envelope(engine, setup, recorded)
    ensures calls == ProbeAll(engine, setup, CasesFor(setup, Elems(recorded)), recorded).calls
  {
    hide Execute, SamplesOf, CaseOf, ScenariosFor;
    var cases := CasesFor(setup, Elems(recorded));
    var absent := recorded;
    var traces: seq<CaseTrace<T>> := [];
    calls := 0;
    for i := 0 to |cases|
      invariant ProbeAll(engine, setup, cases[..i], recorded) == Probe(Ok(traces), absent, calls)
    {
      assert cases[..i + 1][..i] == cases[..i];
      ghost var (start, before) := (absent, calls);
      var ran := false;
      while !ran
        invariant calls >= before
        invariant ran ==> ProbeAll(engine, setup, cases[..i + 1], recorded) == Probe(Ok(traces), absent, calls)
        invariant !ran ==>
          var rest := ProbeCase(engine, setup, cases[i], absent);
          ProbeCase(engine, setup, cases[i], start) == rest.(calls := calls - before + rest.calls)
        invariant !ran ==> ProbeAll(engine, setup, cases[..i], recorded) == Probe(Ok(traces), start, before)
        decreases !ran, MOST_ABSENT + 1 - |absent|
      {
        calls := calls + 1;
        var outcome := Execute(engine, setup.public, SamplesOf(setup, cases[i], absent), absent);
        match outcome
        case Ran(open, trace) =>
          if !open {
            ProbeAllFails(engine, setup, cases, recorded, i + 1);
            return Err("not an independent reference"), calls;
          }
          traces := traces + [CaseTrace(cases[i].name, trace)];
          ran := true;
        case Failed(reason) =>
          ProbeAllFails(engine, setup, cases, recorded, i + 1);
          return Err(reason), calls;
        case UnknownInput(name) =>
          if name in absent || |absent| > MOST_ABSENT {
            ProbeAllFails(engine, setup, cases, recorded, i + 1);
            return Err("unknown scenario input: " + name), calls;
          }
          absent := absent + [name];
      }
    }
    assert cases[..|cases|] == cases;
    var gone := Elems(absent);
    r := Ok(Reference(Sorted(gone), if gone == {} then traces else Kept(traces, ScenarioNames(setup, gone))));
  }

  /** A failure ends the run: later cases are never probed. */
  lemma {:induction false} ProbeAllFails<T>(engine: Engine<T>, setup: Setup, cases: seq<Case>, absent: seq<string>,
      n: nat)
    requires n <= |cases| && ProbeAll(engine, setup, cases[..n], absent).result.Err?
    ensures ProbeAll(engine, setup, cases, absent) == ProbeAll(engine, setup, cases[..n], absent)
    decreases |cases|
  {
    if n < |cases| {
      var init := cases[..|cases| - 1];
      assert init[..n] == cases[..n];
      ProbeAllFails(engine, setup, init, absent, n);
    } else {
      assert cases[..n] == cases;
    }
  }

  // ---------------------------------------------------------------- what the loop promises

  lemma {:induction false} ProbeCaseLearns<T>(engine: Engine<T>, setup: Setup, c: Case, absent: seq<string>)
    ensures var p := ProbeCase(engine, setup, c, absent);
      && absent <= p.absent
      && (Distinct(absent) ==> Distinct(p.absent))
      && |p.absent| <= (if |absent| > MOST_ABSENT then |absent| else MOST_ABSENT + 1)
      && p.calls == 1 + |p.absent| - |absent|
      && (p.result.Ok? ==>
           Execute(engine, setup.public, SamplesOf(setup, c, p.absent), p.absent) == Ran(true, p.result.value))
    decreases MOST_ABSENT + 1 - |absent|
  {
    hide SamplesOf;
    var outcome := Execute(engine, setup.public, SamplesOf(setup, c, absent), absent);
    if outcome.UnknownInput? && outcome.name !in absent && |absent| <= MOST_ABSENT {
      ProbeCaseLearns(engine, setup, c, absent + [outcome.name]);
    }
  }

  /** Case `i` of a finished run was run, last, with the first `n` names of the final absent list. */
  ghost predicate RanWith<T>(engine: Engine<T>, setup: Setup, c: Case, trace: CaseTrace<T>, absent: seq<string>,
      n: nat) {
    && n <= |absent| && trace.name == c.name
    && Execute(engine, setup.public, SamplesOf(setup, c, absent[..n]), absent[..n]) == Ran(true, trace.trace)
  }

  /** ... and those names include the first `from`. */
  ghost predicate RanWithPrefix<T>(engine: Engine<T>, setup: Setup, c: Case, trace: CaseTrace<T>, absent: seq<string>,
      from: nat) {
    exists n: nat :: from <= n && RanWith(engine, setup, c, trace, absent, n)
  }

  /** The loop terminates for any engine; the absent list only grows, by fresh names, never past
      33 unless it began there; a finished run made one call per case plus one per name learned,
      and each case's trace is the engine's answer under a prefix of the final list. */
  lemma {:induction false} LearningIsBounded<T>(engine: Engine<T>, setup: Setup, cases: seq<Case>, absent: seq<string>)
    ensures var p := ProbeAll(engine, setup, cases, absent);
      && absent <= p.absent
      && (Distinct(absent) ==> Distinct(p.absent))
      && |p.absent| <= (if |absent| > MOST_ABSENT then |absent| else MOST_ABSENT + 1)
      && (p.result.Ok? ==>
           && p.calls == |cases| + |p.absent| - |absent|
           && |p.result.value| == |cases|
           && forall i | 0 <= i < |cases| ::
                RanWithPrefix(engine, setup, cases[i], p.result.value[i], p.absent, |absent|))
  {
    hide Execute, SamplesOf;
    if |cases| != 0 {
      var (init, c) := (cases[..|cases| - 1], cases[|cases| - 1]);
      var before := ProbeAll(engine, setup, init, absent);
      LearningIsBounded(engine, setup, init, absent);
      if before.result.Ok? {
        ProbeCaseLearns(engine, setup, c, before.absent);
        var p := ProbeAll(engine, setup, cases, absent);
        if p.result.Ok? {
          assert |before.result.value| == |init|;
          assert p.result.value == before.result.value
              + [CaseTrace(c.name, ProbeCase(engine, setup, c, before.absent).result.value)];
          assert p.calls == |cases| + |p.absent| - |absent|;
          assert |p.result.value| == |cases|;
          forall i | 0 <= i < |cases|
            ensures RanWithPrefix(engine, setup, cases[i], p.result.value[i], p.absent, |absent|)
          {
            if i < |init| {
              assert RanWithPrefix(engine, setup, init[i], before.result.value[i], before.absent, |absent|);
              var n: nat :| |absent| <= n && RanWith(engine, setup, init[i], before.result.value[i], before.absent, n);
              assert before.absent[..n] == p.absent[..n];
              assert RanWith(engine, setup, cases[i], p.result.value[i], p.absent, n);
            } else {
              assert p.absent[..|p.absent|] == p.absent;
              assert RanWith(engine, setup, cases[i], p.result.value[i], p.absent, |p.absent|);
            }
          }
        }
      }
    }
  }

  /** Retaining a configuration again never forgets an absence. */
  lemma AbsencesNeverShrink<T>(engine: Engine<T>, setup: Setup, recorded: seq<string>)
    ensures var r := Envelope(engine, setup, recorded);
      r.Ok? ==> Elems(recorded) <= Elems(r.value.absentInputs)
  {
    var cases := CasesFor(setup, Elems(recorded));
    LearningIsBounded(engine, setup, cases, recorded);
    SortedIsSorted(Elems(ProbeAll(engine, setup, cases, recorded).absent));
  }
}
