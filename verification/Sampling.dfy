/** The two expansions of an acceptance case into the sample grid an engine is stepped on. */
module Sampling {

  datatype Value = Boolean(b: bool) | Float(x: real) | Integer(n: int)

  type Inputs = map<string, Value>

  datatype Phase = Phase(inputs: Inputs, repeat: nat, step: real)

  /** A flat case holds its inputs for `repeat` scans; a step scenario has a timeline instead. */
  datatype Case = Case(name: string, inputs: Inputs, repeat: nat, step: real, timeline: seq<Phase>)

  datatype Sample = Sample(time: real, inputs: Inputs)

  /** How a phase's inputs are read: on top of the earlier phases' (the Tier 1 sampler), or as
      stated (the Tier 2 sampler). */
  datatype Rule = Carry | Restate

  // ---------------------------------------------------------------- casting

  /** Python's `int(...)`: toward zero. */
  function Truncate(x: real): int {
    if x >= 0.0 then x.Floor else -((-x).Floor)
  }

  function CastValue(value: Value, integer: bool): Value {
    if integer && value.Float? then Integer(Truncate(value.x)) else value
  }

  function Cast(inputs: Inputs, integers: set<string>): Inputs {
    map name | name in inputs :: CastValue(inputs[name], name in integers)
  }

  // ---------------------------------------------------------------- the grid

  function Init(timeline: seq<Phase>): seq<Phase>
    requires |timeline| > 0
  {
    timeline[..|timeline| - 1]
  }

  function Last(timeline: seq<Phase>): Phase
    requires |timeline| > 0
  {
    timeline[|timeline| - 1]
  }

  /** `scans` steps after `start`. */
  function Tick(start: real, step: real, scans: nat): real {
    start + scans as real * step
  }

  lemma TickNext(start: real, step: real, scans: nat)
    ensures Tick(start, step, scans + 1) == Tick(start, step, scans) + step
    ensures Tick(start, step, 0) == start
  {
  }

  lemma TickAdds(start: real, step: real, a: nat, b: nat)
    ensures Tick(start, step, a + b) == Tick(Tick(start, step, a), step, b)
  {
  }

  lemma TickIncreases(start: real, step: real, a: nat, b: nat)
    requires step > 0.0 && a < b
    ensures Tick(start, step, a) < Tick(start, step, b)
  {
    assert (b - a) as real * step > 0.0;
  }

  /** When the last phase ends. */
  function Clock(timeline: seq<Phase>): real {
    if |timeline| == 0 then 0.0
    else Tick(Clock(Init(timeline)), Last(timeline).step, Last(timeline).repeat)
  }

  /** Every input named so far, at its latest value. */
  function Held(timeline: seq<Phase>): Inputs {
    if |timeline| == 0 then map[] else Held(Init(timeline)) + Last(timeline).inputs
  }

  /** How many scans the phases take. */
  function Scans(timeline: seq<Phase>): nat {
    if |timeline| == 0 then 0 else Scans(Init(timeline)) + Last(timeline).repeat
  }

  /** The inputs the last phase's scans carry. */
  function InputsOf(rule: Rule, timeline: seq<Phase>): Inputs
    requires |timeline| > 0
  {
    if rule.Carry? then Held(timeline) else Last(timeline).inputs
  }

  function Steady(start: real, step: real, scans: nat, inputs: Inputs): seq<Sample> {
    seq(scans, k requires 0 <= k => Sample(Tick(start, step, k + 1), inputs))
  }

  function Rows(rule: Rule, timeline: seq<Phase>, integers: set<string>): seq<Sample> {
    if |timeline| == 0 then []
    else
      var inputs := Cast(InputsOf(rule, timeline), integers);
      (if |timeline| == 1 then [Sample(0.0, inputs)] else Rows(rule, Init(timeline), integers))
      + Steady(Clock(Init(timeline)), Last(timeline).step, Last(timeline).repeat, inputs)
  }

  function Flat(inputs: Inputs, repeat: nat, step: real, integers: set<string>): seq<Sample> {
    seq(repeat + 1, k requires 0 <= k => Sample(Tick(0.0, step, k), Cast(inputs, integers)))
  }

  function Samples(rule: Rule, c: Case, integers: set<string>): seq<Sample> {
    if |c.timeline| != 0 then Rows(rule, c.timeline, integers) else Flat(c.inputs, c.repeat, c.step, integers)
  }

  // ---------------------------------------------------------------- the two loops

  lemma PrefixStep(timeline: seq<Phase>, n: nat)
    requires n < |timeline|
    ensures Init(timeline[..n + 1]) == timeline[..n] && Last(timeline[..n + 1]) == timeline[n]
  {
  }

  /** `scripts/retain_reference_traces.py`: `current` is updated in place from phase to phase. */
  method CaseSamples(c: Case, integers: set<string>) returns (rows: seq<Sample>)
    ensures rows == Samples(Carry, c, integers)
  {
    hide Tick, Cast;
    rows := [];
    if |c.timeline| != 0 {
      var current: Inputs := map[];
      var time := 0.0;
      for index := 0 to |c.timeline|
        invariant current == Held(c.timeline[..index])
        invariant time == Clock(c.timeline[..index])
        invariant rows == Rows(Carry, c.timeline[..index], integers)
      {
        var phase := c.timeline[index];
        PrefixStep(c.timeline, index);
        current := current + phase.inputs;
        if index == 0 {
          rows := rows + [Sample(0.0, Cast(current, integers))];
        }
        ghost var before := rows;
        ghost var start := time;
        TickNext(start, phase.step, 0);
        for scan := 0 to phase.repeat
          invariant time == Tick(start, phase.step, scan)
          invariant rows == before + Steady(start, phase.step, scan, Cast(current, integers))
        {
          TickNext(start, phase.step, scan);
          time := time + phase.step;
          rows := rows + [Sample(time, Cast(current, integers))];
        }
      }
      assert c.timeline[..|c.timeline|] == c.timeline;
      return;
    }
    for scan := 0 to c.repeat + 1
      invariant |rows| == scan
      invariant forall k | 0 <= k < scan :: rows[k] == Sample(Tick(0.0, c.step, k), Cast(c.inputs, integers))
    {
      rows := rows + [Sample(Tick(0.0, c.step, scan), Cast(c.inputs, integers))];
    }
  }

  /** `scripts/retain_tier2.py`: each phase's scans carry that phase's inputs only. */
  method CaseSamplesTier2(c: Case, integers: set<string>) returns (samples: seq<Sample>)
    ensures samples == Samples(Restate, c, integers)
  {
    hide Tick, Cast;
    if |c.timeline| != 0 {
      samples := [Sample(0.0, Cast(c.timeline[0].inputs, integers))];
      var clock := 0.0;
      for index := 0 to |c.timeline|
        invariant clock == Clock(c.timeline[..index])
        invariant samples == if index == 0 then [Sample(0.0, Cast(c.timeline[0].inputs, integers))]
                             else Rows(Restate, c.timeline[..index], integers)
      {
        var phase := c.timeline[index];
        PrefixStep(c.timeline, index);
        ghost var before := samples;
        ghost var start := clock;
        TickNext(start, phase.step, 0);
        for scan := 0 to phase.repeat
          invariant clock == Tick(start, phase.step, scan)
          invariant samples == before + Steady(start, phase.step, scan, Cast(phase.inputs, integers))
        {
          TickNext(start, phase.step, scan);
          clock := clock + phase.step;
          samples := samples + [Sample(clock, Cast(phase.inputs, integers))];
        }
      }
      assert c.timeline[..|c.timeline|] == c.timeline;
      return;
    }
    samples := Flat(c.inputs, c.repeat, c.step, integers);
  }

  // ---------------------------------------------------------------- closed form

  lemma {:induction false} RowCount(rule: Rule, timeline: seq<Phase>, integers: set<string>)
    requires |timeline| > 0
    ensures |Rows(rule, timeline, integers)| == 1 + Scans(timeline)
  {
    if |timeline| > 1 {
      RowCount(rule, Init(timeline), integers);
    } else {
      assert Scans(Init(timeline)) == 0;
    }
  }

  /** Scan `s` of phase `i` falls `s` steps after the phase began, and carries what the rule reads
      at that phase: for the carrying sampler, every input named up to it at its latest value. */
  lemma {:induction false} RowAt(rule: Rule, timeline: seq<Phase>, integers: set<string>, i: nat, s: nat)
    requires i < |timeline| && 1 <= s <= timeline[i].repeat
    ensures Scans(timeline[..i]) + s < |Rows(rule, timeline, integers)|
    ensures Rows(rule, timeline, integers)[Scans(timeline[..i]) + s] ==
      Sample(Tick(Clock(timeline[..i]), timeline[i].step, s), Cast(InputsOf(rule, timeline[..i + 1]), integers))
    decreases |timeline|
  {
    hide Tick, Cast, InputsOf;
    RowCount(rule, timeline, integers);
    if i == |timeline| - 1 {
      assert timeline[..i + 1] == timeline && timeline[..i] == Init(timeline);
      if |timeline| > 1 { RowCount(rule, Init(timeline), integers); } else { assert Scans(timeline[..0]) == 0; }
    } else {
      assert Init(timeline)[..i] == timeline[..i] && Init(timeline)[..i + 1] == timeline[..i + 1];
      RowAt(rule, Init(timeline), integers, i, s);
    }
  }

  ghost predicate Increasing(rows: seq<Sample>) {
    forall i, j | 0 <= i < j < |rows| :: rows[i].time < rows[j].time
  }

  lemma IncreasingAppend(a: seq<Sample>, b: seq<Sample>)
    requires |a| > 0 && Increasing(a) && Increasing(b)
    requires forall k | 0 <= k < |b| :: a[|a| - 1].time < b[k].time
    ensures Increasing(a + b)
  {
    forall i, j | 0 <= i < j < |a + b| ensures (a + b)[i].time < (a + b)[j].time {
      if i < |a| - 1 && j >= |a| { assert a[i].time < a[|a| - 1].time; }
    }
  }

  /** The grid starts at zero, ends when the last phase does, and moves strictly forward. */
  lemma {:induction false} GridMovesForward(rule: Rule, timeline: seq<Phase>, integers: set<string>)
    requires |timeline| > 0 && forall i | 0 <= i < |timeline| :: timeline[i].step > 0.0
    ensures var rows := Rows(rule, timeline, integers);
      && |rows| == 1 + Scans(timeline)
      && rows[0] == Sample(0.0, Cast(timeline[0].inputs, integers))
      && rows[|rows| - 1].time == Clock(timeline)
      && Increasing(rows)
  {
    hide Tick, Cast, Increasing;
    var (init, last) := (Init(timeline), Last(timeline));
    var inputs := Cast(InputsOf(rule, timeline), integers);
    var first := if |timeline| == 1 then [Sample(0.0, inputs)] else Rows(rule, init, integers);
    RowCount(rule, timeline, integers);
    SteadyIncreases(Clock(init), last.step, last.repeat, inputs);
    if |timeline| > 1 {
      assert forall i | 0 <= i < |init| :: init[i] == timeline[i];
      GridMovesForward(rule, init, integers);
    } else {
      assert Held(init) == map[] && Held(timeline) == timeline[0].inputs;
      OneIncreases(first);
    }
    IncreasingAppend(first, Steady(Clock(init), last.step, last.repeat, inputs));
  }

  lemma OneIncreases(rows: seq<Sample>)
    requires |rows| == 1
    ensures Increasing(rows)
  {
  }

  lemma SteadyIncreases(start: real, step: real, scans: nat, inputs: Inputs)
    requires step > 0.0
    ensures var rows := Steady(start, step, scans, inputs);
      && Increasing(rows)
      && (forall k | 0 <= k < |rows| :: start < rows[k].time)
      && Tick(start, step, scans) == if scans == 0 then start else rows[|rows| - 1].time
  {
    hide Tick;
    TickNext(start, step, 0);
    forall a: nat, b: nat | a < b ensures Tick(start, step, a) < Tick(start, step, b) {
      TickIncreases(start, step, a, b);
    }
  }

  // ---------------------------------------------------------------- agreement

  /** Every phase that emits a row names every input an earlier phase named. */
  ghost predicate RestatesAll(timeline: seq<Phase>) {
    forall i, j | 0 <= j < i < |timeline| && timeline[i].repeat > 0 ::
      timeline[j].inputs.Keys <= timeline[i].inputs.Keys
  }

  lemma {:induction false} HeldKeys(timeline: seq<Phase>)
    ensures forall name :: name in Held(timeline) <==> exists j | 0 <= j < |timeline| :: name in timeline[j].inputs
  {
    if |timeline| > 0 { HeldKeys(Init(timeline)); }
  }

  lemma RestatesLast(timeline: seq<Phase>)
    requires |timeline| > 0
    ensures RestatesAll(timeline) <==>
      RestatesAll(Init(timeline))
          && (Last(timeline).repeat > 0 ==> Held(Init(timeline)).Keys <= Last(timeline).inputs.Keys)
  {
    var (init, last) := (Init(timeline), Last(timeline));
    HeldKeys(init);
    if RestatesAll(timeline) && last.repeat > 0 {
      forall name | name in Held(init) ensures name in last.inputs {
        var j :| 0 <= j < |init| && name in init[j].inputs;
        assert timeline[j].inputs.Keys <= timeline[|timeline| - 1].inputs.Keys;
      }
    }
    if RestatesAll(init) && (last.repeat > 0 ==> Held(init).Keys <= last.inputs.Keys) {
      forall i, j | 0 <= j < i < |timeline| && timeline[i].repeat > 0
        ensures timeline[j].inputs.Keys <= timeline[i].inputs.Keys
      {
        assert timeline[j] == init[j];
        if i == |init| {
          forall name | name in timeline[j].inputs ensures name in last.inputs {
            assert name in Held(init);
          }
        } else {
          assert timeline[i] == init[i];
        }
      }
    }
  }

  /** Carrying adds nothing to a phase's inputs iff the phase names them all. */
  lemma CarryAddsNothing(held: Inputs, inputs: Inputs, integers: set<string>)
    ensures Cast(held + inputs, integers) == Cast(inputs, integers) <==> held.Keys <= inputs.Keys
  {
    if held.Keys <= inputs.Keys {
      assert held + inputs == inputs;
    } else {
      var name :| name in held && name !in inputs;
      assert name in Cast(held + inputs, integers) && name !in Cast(inputs, integers);
    }
  }

  lemma {:induction false} SamplersAgreeOnTimeline(timeline: seq<Phase>, integers: set<string>)
    ensures Rows(Carry, timeline, integers) == Rows(Restate, timeline, integers) <==> RestatesAll(timeline)
  {
    if |timeline| == 1 {
      assert Held(Init(timeline)) == map[] && Held(timeline) == Last(timeline).inputs;
    } else if |timeline| > 1 {
      var (init, last) := (Init(timeline), Last(timeline));
      RowCount(Carry, init, integers);
      RowCount(Restate, init, integers);
      var (a, b) := (Rows(Carry, init, integers), Rows(Restate, init, integers));
      var x := Steady(Clock(init), last.step, last.repeat, Cast(Held(timeline), integers));
      var y := Steady(Clock(init), last.step, last.repeat, Cast(last.inputs, integers));
      SamplersAgreeOnTimeline(init, integers);
      RestatesLast(timeline);
      CarryAddsNothing(Held(init), last.inputs, integers);
      assert a + x == b + y <==> a == b && x == y by {
        if a + x == b + y { assert a == (a + x)[..|a|] && x == (a + x)[|a|..]; }
      }
      if last.repeat > 0 && x == y {
        assert x[0].inputs == y[0].inputs;
      }
    }
  }

  /** The two samplers agree on a case iff it is flat or every phase restates what came before. */
  lemma SamplersAgree(c: Case, integers: set<string>)
    ensures Samples(Carry, c, integers) == Samples(Restate, c, integers) <==>
      |c.timeline| == 0 || RestatesAll(c.timeline)
  {
    SamplersAgreeOnTimeline(c.timeline, integers);
  }

  /** A timeline of one phase is the flat case with that phase's inputs, repeat and step. */
  lemma OnePhaseIsFlat(rule: Rule, p: Phase, integers: set<string>)
    ensures Rows(rule, [p], integers) == Flat(p.inputs, p.repeat, p.step, integers)
  {
    assert Init([p]) == [] && Held([]) == map[] && Held([p]) == p.inputs;
    var (rows, flat) := (Rows(rule, [p], integers), Flat(p.inputs, p.repeat, p.step, integers));
    forall k | 0 <= k < |flat| ensures rows[k] == flat[k] {
    }
  }

  // ---------------------------------------------------------------- splitting a phase

  lemma Extend(rule: Rule, timeline: seq<Phase>, p: Phase, integers: set<string>)
    ensures Clock(timeline + [p]) == Tick(Clock(timeline), p.step, p.repeat)
    ensures Held(timeline + [p]) == Held(timeline) + p.inputs
    ensures var inputs := Cast(InputsOf(rule, timeline + [p]), integers);
      Rows(rule, timeline + [p], integers) ==
        (if |timeline| == 0 then [Sample(0.0, inputs)] else Rows(rule, timeline, integers))
        + Steady(Clock(timeline), p.step, p.repeat, inputs)
  {
    assert Init(timeline + [p]) == timeline;
  }

  lemma SteadySplits(start: real, step: real, a: nat, b: nat, inputs: Inputs)
    ensures Steady(start, step, a + b, inputs) ==
      Steady(start, step, a, inputs) + Steady(Tick(start, step, a), step, b, inputs)
  {
    hide Tick;
    var (whole, right) := (Steady(start, step, a + b, inputs), Steady(Tick(start, step, a), step, b, inputs));
    forall k: nat | k < b ensures whole[a + k] == right[k] {
      TickAdds(start, step, a, k + 1);
    }
  }

  lemma SplitHere(before: seq<Phase>, inputs: Inputs, a: nat, b: nat, step: real, integers: set<string>)
    ensures
      var whole := before + [Phase(inputs, a + b, step)];
      var halves := before + [Phase(inputs, a, step)] + [Phase(map[], b, step)];
      && Clock(whole) == Clock(halves) && Held(whole) == Held(halves)
      && Rows(Carry, whole, integers) == Rows(Carry, halves, integers)
  {
    hide Tick, Cast;
    var first := before + [Phase(inputs, a, step)];
    Extend(Carry, before, Phase(inputs, a + b, step), integers);
    Extend(Carry, before, Phase(inputs, a, step), integers);
    Extend(Carry, first, Phase(map[], b, step), integers);
    assert Held(before) + inputs + map[] == Held(before) + inputs;
    TickAdds(Clock(before), step, a, b);
    SteadySplits(Clock(before), step, a, b, Cast(Held(before) + inputs, integers));
  }

  /** For the carrying sampler, cutting a phase in two and leaving the second half's inputs empty
      changes no sample, wherever in the timeline the phase stands. */
  lemma {:induction false} SplittingAPhase(before: seq<Phase>, inputs: Inputs, a: nat, b: nat, step: real,
                                           after: seq<Phase>, integers: set<string>)
    ensures var whole := before + [Phase(inputs, a + b, step)] + after;
      var halves := before + [Phase(inputs, a, step)] + [Phase(map[], b, step)] + after;
      && Clock(whole) == Clock(halves) && Held(whole) == Held(halves)
      && Rows(Carry, whole, integers) == Rows(Carry, halves, integers)
    decreases |after|
  {
    hide Tick, Cast, Clock, Held, Rows;
    var whole := before + [Phase(inputs, a + b, step)];
    var halves := before + [Phase(inputs, a, step)] + [Phase(map[], b, step)];
    if |after| == 0 {
      SplitHere(before, inputs, a, b, step, integers);
      assert whole + after == whole && halves + after == halves;
    } else {
      var (init, last) := (Init(after), Last(after));
      SplittingAPhase(before, inputs, a, b, step, init, integers);
      assert whole + after == (whole + init) + [last] && halves + after == (halves + init) + [last];
      ExtendBoth(whole + init, halves + init, last, integers);
    }
  }

  lemma ExtendBoth(left: seq<Phase>, right: seq<Phase>, p: Phase, integers: set<string>)
    requires |left| > 0 && |right| > 0 && Clock(left) == Clock(right) && Held(left) == Held(right)
    requires Rows(Carry, left, integers) == Rows(Carry, right, integers)
    ensures Clock(left + [p]) == Clock(right + [p]) && Held(left + [p]) == Held(right + [p])
    ensures Rows(Carry, left + [p], integers) == Rows(Carry, right + [p], integers)
  {
    Extend(Carry, left, p, integers);
    Extend(Carry, right, p, integers);
    hide Tick, Cast, Clock, Held, Rows;
  }

  // ---------------------------------------------------------------- dropping absent inputs

  function Drop(inputs: Inputs, absent: set<string>): Inputs {
    map name | name in inputs && name !in absent :: inputs[name]
  }

  function DropPhases(timeline: seq<Phase>, absent: set<string>): seq<Phase> {
    seq(|timeline|, i requires 0 <= i < |timeline| => timeline[i].(inputs := Drop(timeline[i].inputs, absent)))
  }

  /** `_without`: no phase, and no flat case, keeps an input listed as absent. */
  function Without(c: Case, absent: set<string>): Case {
    if |c.timeline| != 0 then c.(timeline := DropPhases(c.timeline, absent))
    else c.(inputs := Drop(c.inputs, absent))
  }

  function DropSamples(rows: seq<Sample>, absent: set<string>): seq<Sample> {
    seq(|rows|, k requires 0 <= k < |rows| => rows[k].(inputs := Drop(rows[k].inputs, absent)))
  }

  lemma {:induction false} DropHeld(timeline: seq<Phase>, absent: set<string>)
    ensures Held(DropPhases(timeline, absent)) == Drop(Held(timeline), absent)
    ensures Clock(DropPhases(timeline, absent)) == Clock(timeline)
  {
    if |timeline| > 0 {
      assert Init(DropPhases(timeline, absent)) == DropPhases(Init(timeline), absent);
      DropHeld(Init(timeline), absent);
    } else {
      assert DropPhases(timeline, absent) == [] && Drop(map[], absent) == map[];
    }
  }

  lemma DropSteady(start: real, step: real, scans: nat, inputs: Inputs, absent: set<string>)
    ensures DropSamples(Steady(start, step, scans, inputs), absent) == Steady(start, step, scans, Drop(inputs, absent))
  {
    hide Tick;
  }

  lemma DropConcat(a: seq<Sample>, b: seq<Sample>, absent: set<string>)
    ensures DropSamples(a + b, absent) == DropSamples(a, absent) + DropSamples(b, absent)
  {
  }

  lemma {:induction false} DropRows(rule: Rule, timeline: seq<Phase>, absent: set<string>, integers: set<string>)
    ensures Rows(rule, DropPhases(timeline, absent), integers) == DropSamples(Rows(rule, timeline, integers), absent)
  {
    if |timeline| > 0 {
      var dropped := DropPhases(timeline, absent);
      var inputs := Cast(InputsOf(rule, timeline), integers);
      var (first, steady) := (if |timeline| == 1 then [Sample(0.0, inputs)] else Rows(rule, Init(timeline), integers),
                              Steady(Clock(Init(timeline)), Last(timeline).step, Last(timeline).repeat, inputs));
      assert Init(dropped) == DropPhases(Init(timeline), absent);
      DropHeld(timeline, absent);
      DropHeld(Init(timeline), absent);
      DropRows(rule, Init(timeline), absent, integers);
      assert Cast(InputsOf(rule, dropped), integers) == Drop(inputs, absent);
      DropConcat(first, steady, absent);
      DropSteady(Clock(Init(timeline)), Last(timeline).step, Last(timeline).repeat, inputs, absent);
    }
  }

  /** Dropping inputs and sampling commute: same times, same row count, the absent inputs gone. */
  lemma DroppingCommutes(rule: Rule, c: Case, absent: set<string>, integers: set<string>)
    ensures Samples(rule, Without(c, absent), integers) == DropSamples(Samples(rule, c, integers), absent)
  {
    if |c.timeline| != 0 {
      DropRows(rule, c.timeline, absent, integers);
    } else {
      assert Cast(Drop(c.inputs, absent), integers) == Drop(Cast(c.inputs, integers), absent);
    }
  }
}
