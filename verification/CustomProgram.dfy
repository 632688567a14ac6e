/** Drafting a custom program with the coding model, then testing and repairing it. */
module CustomProgram {
  import opened Text
  import opened Agents

  datatype Intent = Answer | ProposeChange

  /** The coding model's structured answer: a proposal carries a graph, an answer does not. */
  datatype AnyEnvelope = AnyEnvelope(intent: Intent, graphJson: Option<string>)

  type Envelope = e: AnyEnvelope |
    (e.intent.ProposeChange? ==> e.graphJson.Some? && e.graphJson.value != "") &&
    (e.intent.Answer? ==> e.graphJson.None?)
    witness AnyEnvelope(Answer, None)

  /** The coding model: its answer to the n-th call, or a provider error. */
  type Coder = nat -> Outcome<Envelope>

  /** The deterministic graph validator. */
  type Validator<!G> = string -> Outcome<G>

  /** `AIEnvelope.graph()`: nothing, a validated graph, or a raised validation error. */
  function GraphOf<G>(validate: Validator<G>, e: Envelope): Outcome<Option<G>> {
    if e.graphJson.None? then Ok(None)
    else
      match validate(e.graphJson.value)
      case Ok(graph) => Ok(Some(graph))
      case Raised(error) => Raised(error)
  }

  /** The answer proposes a graph that the validator accepts. */
  predicate Proposes<G>(validate: Validator<G>, e: Envelope) {
    e.intent.ProposeChange? && e.graphJson.Some? && validate(e.graphJson.value).Ok?
  }

  const NO_GRAPH := "AI did not return a graph for the custom controls job"
  const NO_REPAIR := "AI did not return a graph while repairing failed tests"

  /** What a rejected draft is answered with: the validator's error, or that there was no graph. */
  function Rejection<G>(validate: Validator<G>, e: Envelope): string {
    if e.graphJson.Some? && validate(e.graphJson.value).Raised? then validate(e.graphJson.value).error else NO_GRAPH
  }

  /** What drafting needs of the job before the coding model is asked at all. */
  datatype Job = Job(hasAcceptanceTests: bool, hasSequenceText: bool) {
    predicate CanBeDrafted() { hasAcceptanceTests && hasSequenceText }
  }

  const NO_TESTS := "AI-custom jobs require engineer-authored acceptance tests"
  const NO_TEXT := "AI-custom jobs require an extracted sequence document"

  /** Draft the first graph: one call, and one more when the first graph is rejected. */
  method Draft<G>(job: Job, coder: Coder, validate: Validator<G>) returns (outcome: Outcome<Envelope>, calls: nat)
    ensures calls == 0 <==> !job.CanBeDrafted()
    ensures calls == 0 ==> outcome == Raised(if job.hasAcceptanceTests then NO_TEXT else NO_TESTS)
    ensures calls <= 2
    ensures calls == 1 <==> job.CanBeDrafted() && (coder(0).Raised? || Proposes(validate, coder(0).value))
    ensures calls > 0 && coder(calls - 1).Raised? ==> outcome == Raised(coder(calls - 1).error)
    ensures calls > 0 && coder(calls - 1).Ok? && Proposes(validate, coder(calls - 1).value) ==>
        outcome == coder(calls - 1)
    ensures calls > 0 && coder(calls - 1).Ok? && !Proposes(validate, coder(calls - 1).value) ==>
      var json := coder(calls - 1).value.graphJson;
      outcome == Raised(if json.Some? && validate(json.value).Raised? then validate(json.value).error else NO_GRAPH)
  {
    calls := 0;
    if !job.hasAcceptanceTests { return Raised(NO_TESTS), calls; }
    if !job.hasSequenceText { return Raised(NO_TEXT), calls; }
    var lastError := "AI custom graph drafting failed";
    for attempt := 0 to 2
      invariant calls == attempt
      invariant attempt >= 1 ==> coder(0).Ok? && !Proposes(validate, coder(0).value)
      invariant attempt >= 1 ==> coder(attempt - 1).Ok? && !Proposes(validate, coder(attempt - 1).value)
      invariant attempt >= 1 ==> lastError == Rejection(validate, coder(attempt - 1).value)
    {
      var answer := coder(calls);
      calls := calls + 1;
      if answer.Raised? {
        return Raised(answer.error), calls;
      }
      var envelope := answer.value;
      if envelope.intent != ProposeChange {
        lastError := NO_GRAPH;
      } else {
        var graph := GraphOf(validate, envelope);
        if graph.Raised? {
          lastError := graph.error;
        } else if graph.value.Some? {
          return Ok(envelope), calls;
        }
      }
    }
    outcome := Raised(lastError);
  }

  /** `ControlsChatAgent.revise`: one call. */
  function Revised<G>(validate: Validator<G>, answer: Outcome<Envelope>): Outcome<G> {
    match answer
    case Raised(error) => Raised(error)
    case Ok(envelope) =>
      match GraphOf(validate, envelope)
      case Raised(error) => Raised(error)
      case Ok(graph) =>
        if envelope.intent.ProposeChange? && graph.Some? then Ok(graph.value) else Raised(NO_REPAIR)
  }

  /** The planner that proposes the drafted graph and repairs through the coding model, whose
      first `used` answers are spent. */
  function ProposedGraphPlanner<G>(coder: Coder, validate: Validator<G>, initial: G, used: nat): Planner<G> {
    Planner(Ok(initial), (i: nat, graph: G, report: Report) => Revised(validate, coder(used + i)))
  }

  /** The graph is what the validator made of the coding model's answer to some call below `calls`. */
  ghost predicate Validated<G>(coder: Coder, validate: Validator<G>, graph: G, calls: nat) {
    exists n: nat :: n < calls && AnsweredWith(coder, validate, graph, n)
  }

  ghost predicate AnsweredWith<G>(coder: Coder, validate: Validator<G>, graph: G, n: nat) {
    coder(n).Ok? && coder(n).value.graphJson.Some? && validate(coder(n).value.graphJson.value) == Ok(graph)
  }

  /** Drafting ends at call `d`: the first answer that proposes a valid graph. */
  ghost predicate DraftedAt<G>(coder: Coder, validate: Validator<G>, d: nat) {
    && 1 <= d <= 2 && coder(d - 1).Ok? && Proposes(validate, coder(d - 1).value)
    && (d == 2 ==> coder(0).Ok? && !Proposes(validate, coder(0).value))
  }

  /** Graph `k` is the validated answer to the call `k` after the last drafting call, and all but the
      last failed their tests; the calls are those and at most one more, whose answer was no graph. */
  ghost predicate IsRepairRun<G>(coder: Coder, validate: Validator<G>, bench: Bench<G>, graphs: seq<G>, calls: nat,
      d: nat)
  {
    && DraftedAt(coder, validate, d) && |graphs| > 0
    && (forall k | 0 <= k < |graphs| :: AnsweredWith(coder, validate, graphs[k], d - 1 + k))
    && (forall k | 0 <= k < |graphs| - 1 :: Failed(bench, graphs[k]))
    && (calls == d + |graphs| - 1
        || (calls == d + |graphs| && Failed(bench, graphs[|graphs| - 1])
            && (coder(calls - 1).Ok? ==> !Proposes(validate, coder(calls - 1).value))))
  }

  /** Draft, then plan, test and repair: at most 2 + (maxAttempts - 1) coding-model calls, and only
      validated graphs reach the acceptance suite. */
  method DraftAndRun<G>(job: Job, coder: Coder, validate: Validator<G>, bench: Bench<G>, maxAttempts: nat)
    returns (outcome: Outcome<Result<G>>, graphs: seq<G>, calls: nat)
    requires maxAttempts >= 1
    ensures calls <= 2 + (maxAttempts - 1)
    ensures calls == 0 <==> !job.CanBeDrafted()
    ensures |graphs| <= maxAttempts
    ensures forall k | 0 <= k < |graphs| :: Validated(coder, validate, graphs[k], calls)
    ensures |graphs| > 0 ==> exists d: nat :: IsRepairRun(coder, validate, bench, graphs, calls, d)
    ensures |graphs| == 0 ==> outcome.Raised? && calls <= 2
    ensures outcome.Ok? ==>
      && Attempted(bench, graphs, outcome.value.attempts) && |graphs| > 0
      && outcome.value.graph == graphs[|graphs| - 1]
      && bench.suite(outcome.value.graph) == Ok(outcome.value.report)
      && (outcome.value.report.passed || |graphs| == maxAttempts)
  {
    hide Attempted, Planned, Stops, Failed, Rejection, Revised, Validated, IsRepairRun;
    var draft, drafted := Draft(job, coder, validate);
    if draft.Raised? {
      return Raised(draft.error), [], drafted;
    }
    var initial := GraphOf(validate, draft.value).value.value;
    var planner := ProposedGraphPlanner(coder, validate, initial, drafted);
    var revisions;
    outcome, graphs, revisions := Run(planner, bench, maxAttempts);
    calls := drafted + revisions;
    GraphsAreAnswers(coder, validate, bench, initial, drafted, graphs);
    RunIsRepairRun(coder, validate, bench, initial, drafted, outcome, graphs, revisions);
  }

  lemma RunIsRepairRun<G>(coder: Coder, validate: Validator<G>, bench: Bench<G>, initial: G, drafted: nat,
      outcome: Outcome<Result<G>>, graphs: seq<G>, revisions: nat)
    requires DraftedAt(coder, validate, drafted) && AnsweredWith(coder, validate, initial, drafted - 1)
    requires |graphs| > 0 && Planned(ProposedGraphPlanner(coder, validate, initial, drafted), bench, graphs)
    requires outcome.Ok? ==> revisions == |graphs| - 1
    requires outcome.Raised? ==>
      var last := graphs[|graphs| - 1];
      if bench.suite(last).Raised? then revisions == |graphs| - 1
      else
        && !bench.suite(last).value.passed && revisions == |graphs|
        && Revised(validate, coder(drafted + |graphs| - 1)).Raised?
    ensures IsRepairRun(coder, validate, bench, graphs, drafted + revisions, drafted)
    ensures forall k | 0 <= k < |graphs| :: Validated(coder, validate, graphs[k], drafted + revisions)
  {
    GraphsAreAnswers(coder, validate, bench, initial, drafted, graphs);
    hide Planned, AnsweredWith;
    forall k | 0 <= k < |graphs| ensures Validated(coder, validate, graphs[k], drafted + revisions) {
      assert AnsweredWith(coder, validate, graphs[k], drafted - 1 + k);
    }
  }

  lemma RevisedIsAnswer<G>(coder: Coder, validate: Validator<G>, n: nat, graph: G)
    requires Revised(validate, coder(n)) == Ok(graph)
    ensures AnsweredWith(coder, validate, graph, n)
  {
  }

  /** Each graph of a run is the validated answer to the next call. */
  lemma GraphsAreAnswers<G>(coder: Coder, validate: Validator<G>, bench: Bench<G>, initial: G, drafted: nat,
      graphs: seq<G>)
    requires drafted > 0 && AnsweredWith(coder, validate, initial, drafted - 1)
    requires Planned(ProposedGraphPlanner(coder, validate, initial, drafted), bench, graphs)
    ensures |graphs| > 0 && forall k | 0 <= k < |graphs| :: AnsweredWith(coder, validate, graphs[k], drafted - 1 + k)
    ensures forall k | 0 <= k < |graphs| - 1 :: Failed(bench, graphs[k])
  {
    var planner := ProposedGraphPlanner(coder, validate, initial, drafted);
    forall k | 0 <= k < |graphs| ensures AnsweredWith(coder, validate, graphs[k], drafted - 1 + k) {
      if k > 0 {
        assert RevisedTo(planner, bench, graphs, k - 1);
        RevisedIsAnswer(coder, validate, drafted - 1 + k, graphs[k - 1 + 1]);
      }
    }
    forall k | 0 <= k < |graphs| - 1 ensures Failed(bench, graphs[k]) {
      assert RevisedTo(planner, bench, graphs, k);
    }
  }
}
