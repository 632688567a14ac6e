/** The resumable coverage report: an interrupted and resumed run against the uninterrupted one. */
module Coverage {
  import opened Text

  /** A JSON value, as rows are stored in the progress file. */
  datatype Json = Null | Bool(b: bool) | Number(n: int) | Str(s: string) | Object(fields: map<string, Json>)

  type Row = map<string, Json>

  type Progress = map<string, Row>

  const GRADING_VERSION := 3

  /** One configuration of the report. `base` is the row before grading; `blocked` holds the fields
      of a row that cannot be graded (a recorded blocker, or nothing retained). Tier 1
      configurations are never blocked. */
  datatype Config = Config(id: string, tierOne: bool, base: Row, blocked: Option<Row>)

  function Field(row: Row, name: string): Json {
    if name in row then row[name] else Null
  }

  /** D4 could not be judged: the unmutated file failed on every leg. */
  predicate IsBaselineBlocked(row: Row) {
    var d4 := Field(row, "d4");
    d4.Object? && Field(d4.fields, "blocker").Str? && HasPrefix(Field(d4.fields, "blocker").s, "baseline:")
  }

  /** A cached row is used when it is for this sample and this grading, and (in Tier 2) its D4 was
      not blocked by the baseline. */
  predicate Reusable(c: Config, mutants: int, progress: Progress) {
    && c.id in progress
    && var cached := progress[c.id];
    && Field(cached, "_mutants") == Number(mutants) && Field(cached, "_v") == Number(GRADING_VERSION)
    && (c.tierOne || !IsBaselineBlocked(cached))
  }

  function Unmarked(row: Row): Row {
    row - {"_mutants", "_v"}
  }

  function Marked(row: Row, mutants: int): Row {
    row["_mutants" := Number(mutants)]["_v" := Number(GRADING_VERSION)]
  }

  /** Grading: what it adds to a configuration's row. */
  type Grade = (Config, int) -> Row

  function Graded(grade: Grade, c: Config, mutants: int): Row {
    c.base + grade(c, mutants)
  }

  /** The row of a run that starts over. */
  function FreshItem(grade: Grade, c: Config, mutants: int): Row {
    if c.blocked.Some? then Unmarked(c.base + c.blocked.value) else Unmarked(Graded(grade, c, mutants))
  }

  function FreshItems(grade: Grade, configs: seq<Config>, mutants: int): seq<Row> {
    seq(|configs|, k requires 0 <= k < |configs| => FreshItem(grade, configs[k], mutants))
  }

  /** The configurations a run looks at: all of them when `only` names none. */
  function Chosen(configs: seq<Config>, only: set<string>): seq<Config> {
    if |configs| == 0 then []
    else
      var last := configs[|configs| - 1];
      Chosen(configs[..|configs| - 1], only) + if only != {} && last.id !in only then [] else [last]
  }

  // ---------------------------------------------------------------- one run, stopped anywhere

  /** A run in flight: the process's progress and rows, the progress file, the configurations
      graded, and the steps left before the run is stopped. Grading is one step, saving another. */
  datatype State = State(
    progress: Progress, file: Option<Progress>, items: seq<Row>, graded: seq<Config>, steps: nat, stopped: bool)

  function Load(file: Option<Progress>, resume: bool): Progress {
    if resume && file.Some? then file.value else map[]
  }

  function Begin(file: Option<Progress>, resume: bool, steps: nat): State {
    State(Load(file, resume), file, [], [], steps, false)
  }

  function Visit(grade: Grade, mutants: int, s: State, c: Config): State {
    if s.stopped || s.steps == 0 then s.(stopped := true)
    else if c.blocked.Some? then
      s.(items := s.items + [Unmarked(c.base + c.blocked.value)], steps := s.steps - 1)
    else if Reusable(c, mutants, s.progress) then
      s.(items := s.items + [Unmarked(c.base + s.progress[c.id])], steps := s.steps - 1)
    else if s.steps == 1 then s.(graded := s.graded + [c], steps := 0, stopped := true)
    else
      var row := Graded(grade, c, mutants);
      var progress := s.progress[c.id := Marked(row, mutants)];
      State(progress, Some(progress), s.items + [Unmarked(row)], s.graded + [c], s.steps - 2, false)
  }

  function RunOver(grade: Grade, mutants: int, s: State, configs: seq<Config>): State {
    if |configs| == 0 then s
    else Visit(grade, mutants, RunOver(grade, mutants, s, configs[..|configs| - 1]), configs[|configs| - 1])
  }

  /** The report generator and its progress file. */
  class Generator {
    var progressFile: Option<Progress>

    constructor (file: Option<Progress>)
      ensures progressFile == file
    {
      progressFile := file;
    }

    /** `build`, stopped after `steps` steps; `None` when it did not finish. */
    method Build(grade: Grade, configs: seq<Config>, only: set<string>, mutants: int, resume: bool, steps: nat)
      returns (items: Option<seq<Row>>, graded: seq<Config>)
      modifies this
      ensures var end := RunOver(grade, mutants, Begin(old(progressFile), resume, steps), Chosen(configs, only));
        && progressFile == end.file && graded == end.graded
        && items == if end.stopped then None else Some(end.items)
    {
      hide Reusable, Marked, Unmarked, Graded, RunOver, Chosen;
      RunOverNothing(grade, mutants, Begin(progressFile, resume, steps), configs, only);
      var progress := Load(progressFile, resume);
      var rows: seq<Row> := [];
      var left := steps;
      graded := [];
      ghost var begin := Begin(progressFile, resume, steps);
      for k := 0 to |configs|
        invariant RunOver(grade, mutants, begin, Chosen(configs[..k], only)) ==
          State(progress, progressFile, rows, graded, left, false)
      {
        var c := configs[k];
        ChosenNext(configs, only, k);
        if only != {} && c.id !in only {
          continue;
        }
        ghost var before := Chosen(configs[..k], only);
        RunOverNext(grade, mutants, begin, before, c);
        if left == 0 {
          RunStopped(grade, mutants, begin, configs, only, k + 1);
          return None, graded;
        }
        left := left - 1;
        if c.blocked.Some? {
          rows := rows + [Unmarked(c.base + c.blocked.value)];
        } else if Reusable(c, mutants, progress) {
          CachedIsThere(c, mutants, progress);
          rows := rows + [Unmarked(c.base + progress[c.id])];
        } else {
          var row := Graded(grade, c, mutants);
          graded := graded + [c];
          if left == 0 {
            RunStopped(grade, mutants, begin, configs, only, k + 1);
            return None, graded;
          }
          left := left - 1;
          progress := progress[c.id := Marked(row, mutants)];
          progressFile := Some(progress);
          rows := rows + [Unmarked(row)];
        }
      }
      assert configs[..|configs|] == configs;
      items := Some(rows);
    }
  }

  lemma CachedIsThere(c: Config, mutants: int, progress: Progress)
    ensures Reusable(c, mutants, progress) ==> c.id in progress
  {
  }

  lemma ChosenNext(configs: seq<Config>, only: set<string>, k: nat)
    requires k < |configs|
    ensures Chosen(configs[..k + 1], only) ==
      if only != {} && configs[k].id !in only then Chosen(configs[..k], only)
      else Chosen(configs[..k], only) + [configs[k]]
  {
    assert configs[..k + 1][..k] == configs[..k];
    assert Chosen(configs[..k], only) + [] == Chosen(configs[..k], only);
  }

  lemma {:induction false} ChosenAreConfigs(configs: seq<Config>, only: set<string>)
    ensures |Chosen(configs, only)| <= |configs| && forall c | c in Chosen(configs, only) :: c in configs
  {
    if |configs| != 0 { ChosenAreConfigs(configs[..|configs| - 1], only); }
  }

  lemma RunOverNothing(grade: Grade, mutants: int, s: State, configs: seq<Config>, only: set<string>)
    ensures RunOver(grade, mutants, s, Chosen(configs[..0], only)) == s
  {
  }

  lemma RunOverNext(grade: Grade, mutants: int, s: State, configs: seq<Config>, c: Config)
    ensures RunOver(grade, mutants, s, configs + [c]) == Visit(grade, mutants, RunOver(grade, mutants, s, configs), c)
  {
    assert (configs + [c])[..|configs|] == configs;
  }

  lemma VisitStopped(grade: Grade, mutants: int, s: State, c: Config)
    requires s.stopped
    ensures Visit(grade, mutants, s, c) == s
  {
  }

  /** A stopped run does nothing more. */
  lemma {:induction false} RunStopped(grade: Grade, mutants: int, s: State, configs: seq<Config>, only: set<string>,
      n: nat)
    requires n <= |configs| && RunOver(grade, mutants, s, Chosen(configs[..n], only)).stopped
    ensures RunOver(grade, mutants, s, Chosen(configs, only)) == RunOver(grade, mutants, s, Chosen(configs[..n], only))
    decreases |configs|
  {
    hide Visit, RunOver, Chosen;
    if n < |configs| {
      var (init, last) := (configs[..|configs| - 1], configs[|configs| - 1]);
      assert init[..n] == configs[..n];
      RunStopped(grade, mutants, s, init, only, n);
      ChosenNext(configs, only, |init|);
      assert configs[..|init| + 1] == configs;
      RunOverNext(grade, mutants, s, Chosen(init, only), last);
      VisitStopped(grade, mutants, RunOver(grade, mutants, s, Chosen(init, only)), last);
    } else {
      assert configs[..n] == configs;
    }
  }
}
