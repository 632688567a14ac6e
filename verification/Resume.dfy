/** Interrupting and resuming the coverage report, any number of times. */
module Resume {
  import opened Text
  import opened Coverage

  ghost predicate DistinctIds(configs: seq<Config>) {
    forall i, j | 0 <= i < j < |configs| :: configs[i].id != configs[j].id
  }

  // ---------------------------------------------------------------- the rows of a resumed run

  /** A configuration's row when the run began with `loaded`. */
  function ResumedItem(grade: Grade, mutants: int, c: Config, loaded: Progress): Row {
    if c.blocked.None? && Reusable(c, mutants, loaded) then Unmarked(c.base + loaded[c.id])
    else FreshItem(grade, c, mutants)
  }

  /** Every cached row a run over the configurations would use is the row grading would give. */
  ghost predicate Sound(grade: Grade, mutants: int, configs: seq<Config>, progress: Progress) {
    forall c | c in configs :: IsSoundFor(grade, mutants, c, progress)
  }

  ghost predicate IsSoundFor(grade: Grade, mutants: int, c: Config, progress: Progress) {
    ResumedItem(grade, mutants, c, progress) == FreshItem(grade, c, mutants)
  }

  /** A row that was graded and saved comes back unchanged. */
  lemma SavedRowIsFresh(grade: Grade, mutants: int, c: Config)
    requires c.blocked.None?
    ensures Unmarked(c.base + Marked(Graded(grade, c, mutants), mutants)) == FreshItem(grade, c, mutants)
  {
  }

  lemma SameEntry(grade: Grade, c: Config, mutants: int, a: Progress, b: Progress)
    requires c.id in a <==> c.id in b
    requires c.id in a ==> a[c.id] == b[c.id]
    ensures Reusable(c, mutants, a) <==> Reusable(c, mutants, b)
    ensures ResumedItem(grade, mutants, c, a) == ResumedItem(grade, mutants, c, b)
  {
  }

  /** So far the run's rows are those of `loaded`, and the entries of configurations not visited
      yet are as loaded. */
  ghost predicate RunsTo(grade: Grade, mutants: int, loaded: Progress, visited: seq<Config>, s: State) {
    && |s.items| == |visited|
    && (forall k | 0 <= k < |visited| :: s.items[k] == ResumedItem(grade, mutants, visited[k], loaded))
    && (forall id | NotVisited(visited, id) ::
         (id in s.progress <==> id in loaded) && (id in loaded ==> s.progress[id] == loaded[id]))
  }

  ghost predicate NotVisited(visited: seq<Config>, id: string) {
    forall k | 0 <= k < |visited| :: visited[k].id != id
  }

  lemma VisitRow(grade: Grade, mutants: int, s: State, c: Config)
    requires !Visit(grade, mutants, s, c).stopped
    ensures Visit(grade, mutants, s, c).items == s.items + [ResumedItem(grade, mutants, c, s.progress)]
    ensures forall id | id != c.id ::
      var progress := Visit(grade, mutants, s, c).progress;
      (id in progress <==> id in s.progress) && (id in s.progress ==> progress[id] == s.progress[id])
  {
    hide Reusable, Marked;
  }

  lemma DistinctInit(configs: seq<Config>)
    requires DistinctIds(configs)
    ensures |configs| > 0 ==>
      DistinctIds(configs[..|configs| - 1]) && NotVisited(configs[..|configs| - 1], configs[|configs| - 1].id)
  {
  }

  lemma {:induction false} RunRows(grade: Grade, mutants: int, begin: State, configs: seq<Config>)
    requires DistinctIds(configs) && begin.items == [] && !begin.stopped
    requires !RunOver(grade, mutants, begin, configs).stopped
    ensures RunsTo(grade, mutants, begin.progress, configs, RunOver(grade, mutants, begin, configs))
  {
    hide Visit, ResumedItem, DistinctIds;
    DistinctInit(configs);
    if |configs| != 0 {
      var (init, c) := (configs[..|configs| - 1], configs[|configs| - 1]);
      var s := RunOver(grade, mutants, begin, init);
      if s.stopped { VisitStopped(grade, mutants, s, c); }
      RunRows(grade, mutants, begin, init);
      VisitRow(grade, mutants, s, c);
      SameEntry(grade, c, mutants, s.progress, begin.progress);
      forall id | NotVisited(configs, id) ensures NotVisited(init, id) && id != c.id {
        assert configs[|configs| - 1].id != id;
        assert forall k | 0 <= k < |init| :: init[k] == configs[k];
      }
    }
  }

  /** A resumed run that finishes yields the rows of a fresh one iff every cached row it would use
      is sound. */
  lemma ResumeIsFreshIff(grade: Grade, mutants: int, configs: seq<Config>, file: Option<Progress>, resume: bool,
      steps: nat)
    requires DistinctIds(configs)
    requires !RunOver(grade, mutants, Begin(file, resume, steps), configs).stopped
    ensures
      RunOver(grade, mutants, Begin(file, resume, steps), configs).items == FreshItems(grade, configs, mutants) <==>
      Sound(grade, mutants, configs, Load(file, resume))
  {
    hide ResumedItem, FreshItem, RunOver;
    RunRows(grade, mutants, Begin(file, resume, steps), configs);
    assert forall k | 0 <= k < |configs| :: configs[k] in configs;
    var (items, expected) := (RunOver(grade, mutants, Begin(file, resume, steps), configs).items,
        FreshItems(grade, configs, mutants));
    if items == expected {
      forall c | c in configs ensures IsSoundFor(grade, mutants, c, Load(file, resume)) {
        var k :| 0 <= k < |configs| && configs[k] == c;
        assert items[k] == expected[k];
      }
    }
  }

  lemma {:induction false} EnoughSteps(grade: Grade, mutants: int, begin: State, configs: seq<Config>)
    requires !begin.stopped && begin.steps >= 2 * |configs|
    ensures var s := RunOver(grade, mutants, begin, configs);
      !s.stopped && s.steps >= begin.steps - 2 * |configs|
  {
    if |configs| != 0 { EnoughSteps(grade, mutants, begin, configs[..|configs| - 1]); }
  }

  lemma {:induction false} ChosenIsDistinct(configs: seq<Config>, only: set<string>)
    requires DistinctIds(configs)
    ensures DistinctIds(Chosen(configs, only))
  {
    if |configs| != 0 {
      var (init, last) := (configs[..|configs| - 1], configs[|configs| - 1]);
      assert forall i | 0 <= i < |init| :: init[i] == configs[i];
      ChosenIsDistinct(init, only);
      ChosenAreConfigs(init, only);
      forall k | 0 <= k < |Chosen(init, only)| ensures Chosen(init, only)[k].id != last.id {
        assert Chosen(init, only)[k] in init;
      }
    }
  }

  // ---------------------------------------------------------------- what an interruption leaves

  /** For every sample size: rows graded for another one are never used. */
  ghost predicate AllSound(grade: Grade, configs: seq<Config>, progress: Progress) {
    forall mutants :: Sound(grade, mutants, configs, progress)
  }

  ghost predicate SoundFile(grade: Grade, configs: seq<Config>, file: Option<Progress>) {
    file.Some? ==> AllSound(grade, configs, file.value)
  }

  lemma NothingCachedIsSound(grade: Grade, configs: seq<Config>)
    ensures AllSound(grade, configs, map[])
  {
  }

  lemma ResumedAfterSave(grade: Grade, mutants: int, sample: int, c: Config, progress: Progress)
    ensures IsSoundFor(grade, sample, c, progress[c.id := Marked(Graded(grade, c, mutants), mutants)])
  {
    var after := progress[c.id := Marked(Graded(grade, c, mutants), mutants)];
    if sample == mutants {
      if c.blocked.None? { SavedRowIsFresh(grade, mutants, c); }
    } else {
      assert Field(after[c.id], "_mutants") == Number(mutants) by { MarkNames(); }
    }
  }

  lemma MarkNames()
    ensures "_v" != "_mutants"
  {
    assert |"_v"| != |"_mutants"|;
  }

  lemma SaveKeepsSound(grade: Grade, mutants: int, configs: seq<Config>, progress: Progress, c: Config)
    requires DistinctIds(configs) && c in configs && AllSound(grade, configs, progress)
    ensures AllSound(grade, configs, progress[c.id := Marked(Graded(grade, c, mutants), mutants)])
  {
    var after := progress[c.id := Marked(Graded(grade, c, mutants), mutants)];
    forall sample, other | other in configs ensures IsSoundFor(grade, sample, other, after) {
      if other == c {
        ResumedAfterSave(grade, mutants, sample, c, progress);
      } else {
        var i, j :| 0 <= i < |configs| && 0 <= j < |configs| && configs[i] == c && configs[j] == other;
        assert i < j || j < i;
        assert Sound(grade, sample, configs, progress) && IsSoundFor(grade, sample, other, progress);
        SameEntry(grade, other, sample, after, progress);
      }
      hide ResumedItem, FreshItem, Marked, Graded;
    }
  }

  lemma {:induction false} RunKeepsSound(grade: Grade, mutants: int, all: seq<Config>, begin: State,
      configs: seq<Config>)
    requires DistinctIds(all) && forall c | c in configs :: c in all
    requires AllSound(grade, all, begin.progress) && SoundFile(grade, all, begin.file)
    ensures var s := RunOver(grade, mutants, begin, configs);
      AllSound(grade, all, s.progress) && SoundFile(grade, all, s.file)
  {
    hide AllSound, Marked, Graded, Unmarked, Reusable, DistinctIds;
    if |configs| != 0 {
      var (init, c) := (configs[..|configs| - 1], configs[|configs| - 1]);
      RunKeepsSound(grade, mutants, all, begin, init);
      SaveKeepsSound(grade, mutants, all, RunOver(grade, mutants, begin, init).progress, c);
    }
  }

  // ---------------------------------------------------------------- any number of runs

  /** One start of the script: with `--resume` or not, over some or all of the configurations, for
      a sample size, stopped after some steps. */
  datatype Start = Start(resume: bool, only: set<string>, mutants: int, steps: nat)

  function FileAfter(grade: Grade, configs: seq<Config>, file: Option<Progress>, starts: seq<Start>): Option<Progress>
    decreases |starts|, 1
  {
    if |starts| == 0 then file
    else EndOf(grade, configs, file, starts).file
  }

  /** How one start goes, from the file it finds. */
  function Ran(grade: Grade, configs: seq<Config>, file: Option<Progress>, start: Start): State {
    RunOver(grade, start.mutants, Begin(file, start.resume, start.steps), Chosen(configs, start.only))
  }

  /** The end of the last of the runs, each beginning with the file the one before left. */
  function EndOf(grade: Grade, configs: seq<Config>, file: Option<Progress>, starts: seq<Start>): State
    requires |starts| > 0
    decreases |starts|, 0
  {
    Ran(grade, configs, FileAfter(grade, configs, file, starts[..|starts| - 1]), starts[|starts| - 1])
  }

  lemma {:induction false} FilesStaySound(grade: Grade, configs: seq<Config>, file: Option<Progress>,
      starts: seq<Start>)
    requires DistinctIds(configs) && SoundFile(grade, configs, file)
    ensures SoundFile(grade, configs, FileAfter(grade, configs, file, starts))
  {
    hide RunOver, AllSound, Chosen;
    if |starts| != 0 {
      var (before, last) := (starts[..|starts| - 1], starts[|starts| - 1]);
      FilesStaySound(grade, configs, file, before);
      NothingCachedIsSound(grade, configs);
      ChosenAreConfigs(configs, last.only);
      var left := FileAfter(grade, configs, file, before);
      RunKeepsSound(grade, last.mutants, configs, Begin(left, last.resume, last.steps), Chosen(configs, last.only));
    }
  }

  /** Crash/resume refinement: from a sound progress file (or none), after any number of runs, each
      with or without `--resume`, over its own configurations, for its own sample size and stopped
      anywhere, the run that finishes yields exactly the rows of one fresh run of its kind; and a
      run given two steps per configuration does finish. */
  lemma InterruptedRunsRefineFreshRun(grade: Grade, configs: seq<Config>, file: Option<Progress>, starts: seq<Start>)
    requires DistinctIds(configs) && SoundFile(grade, configs, file) && |starts| > 0
    ensures
      var (end, last) := (EndOf(grade, configs, file, starts), starts[|starts| - 1]);
      && (!end.stopped ==> end.items == FreshItems(grade, Chosen(configs, last.only), last.mutants))
      && (last.steps >= 2 * |configs| ==> !end.stopped)
  {
    hide RunOver, Chosen, ResumedItem, FreshItem;
    var (before, last) := (starts[..|starts| - 1], starts[|starts| - 1]);
    var (left, chosen) := (FileAfter(grade, configs, file, before), Chosen(configs, last.only));
    FilesStaySound(grade, configs, file, before);
    NothingCachedIsSound(grade, configs);
    ChosenAreConfigs(configs, last.only);
    ChosenIsDistinct(configs, last.only);
    if last.steps >= 2 * |configs| {
      EnoughSteps(grade, last.mutants, Begin(left, last.resume, last.steps), chosen);
    }
    if !EndOf(grade, configs, file, starts).stopped {
      assert Sound(grade, last.mutants, configs, Load(left, last.resume));
      ResumeIsFreshIff(grade, last.mutants, chosen, left, last.resume, last.steps);
    }
  }

  lemma {:induction false} NoStepsNoChange(grade: Grade, mutants: int, begin: State, configs: seq<Config>)
    requires begin.steps == 0
    ensures RunOver(grade, mutants, begin, configs).file == begin.file
    ensures RunOver(grade, mutants, begin, configs).steps == 0
  {
    if |configs| != 0 { NoStepsNoChange(grade, mutants, begin, configs[..|configs| - 1]); }
  }

  /** The condition on the initial file is needed even when the first run starts over: stopped
      before its first save, it leaves the older progress file, and the resumed run trusts it. The
      two runs yield the fresh rows iff that file was sound for what they look at. */
  lemma StaleFileSurvivesFreshRun(grade: Grade, configs: seq<Config>, only: set<string>, mutants: int, stale: Progress)
    requires DistinctIds(configs)
    ensures
      var starts := [Start(false, only, mutants, 0), Start(true, only, mutants, 2 * |configs|)];
      var (end, chosen) := (EndOf(grade, configs, Some(stale), starts), Chosen(configs, only));
      && !end.stopped
      && (end.items == FreshItems(grade, chosen, mutants) <==> Sound(grade, mutants, chosen, stale))
  {
    hide RunOver, Sound, Chosen;
    var starts := [Start(false, only, mutants, 0), Start(true, only, mutants, 2 * |configs|)];
    var (first, chosen) := ([Start(false, only, mutants, 0)], Chosen(configs, only));
    assert starts[..1] == first && first[..0] == [];
    assert FileAfter(grade, configs, Some(stale), first[..0]) == Some(stale);
    NoStepsNoChange(grade, mutants, Begin(Some(stale), false, 0), chosen);
    assert FileAfter(grade, configs, Some(stale), first) == Some(stale);
    ChosenAreConfigs(configs, only);
    ChosenIsDistinct(configs, only);
    EnoughSteps(grade, mutants, Begin(Some(stale), true, 2 * |configs|), chosen);
    ResumeIsFreshIff(grade, mutants, chosen, Some(stale), true, 2 * |configs|);
  }

  /** Such a file: a row that passed, saved before the code it graded was changed. */
  lemma AStaleFile()
    ensures
      var grade: Grade := (c, n) => map["d1" := Bool(false)];
      var c := Config("ahu", false, map[], None);
      var stale := map["ahu" := Marked(map["d1" := Bool(true)], 25)];
      !Sound(grade, 25, [c], stale)
  {
    var grade: Grade := (c, n) => map["d1" := Bool(false)];
    var c := Config("ahu", false, map[], None);
    var row := Marked(map["d1" := Bool(true)], 25);
    var stale := map["ahu" := row];
    MarkNames();
    assert "d1"[0] != "_v"[0] && "d1"[0] != "_mutants"[0] && |"d4"| == |"d1"| && "d4"[1] != "d1"[1]
        && "d4"[0] != "_v"[0];
    assert |"d4"| != |"_mutants"|;
    assert Field(row, "d4") == Null;
    assert Reusable(c, 25, stale);
    assert ResumedItem(grade, 25, c, stale)["d1"] == Bool(true);
    assert FreshItem(grade, c, 25)["d1"] == Bool(false);
    assert c in [c] && !IsSoundFor(grade, 25, c, stale);
  }

  // ---------------------------------------------------------------- how much is graded

  /** Graded once and saved, the configuration is reused from then on: it is not blocked, and (in
      Tier 2) not stuck on a baseline blocker. */
  predicate Settling(grade: Grade, mutants: int, c: Config) {
    c.blocked.None? && (c.tierOne || !IsBaselineBlocked(Marked(Graded(grade, c, mutants), mutants)))
  }

  predicate IsUnsettled(grade: Grade, mutants: int, c: Config, progress: Progress) {
    Settling(grade, mutants, c) && !Reusable(c, mutants, progress)
  }

  function Unsettled(grade: Grade, mutants: int, configs: seq<Config>, progress: Progress): nat {
    if |configs| == 0 then 0
    else
      var last := configs[|configs| - 1];
      Unsettled(grade, mutants, configs[..|configs| - 1], progress)
      + if IsUnsettled(grade, mutants, last, progress) then 1 else 0
  }

  /** How many of the gradings were of settling configurations. */
  function Gradings(grade: Grade, mutants: int, graded: seq<Config>): nat {
    if |graded| == 0 then 0
    else
      Gradings(grade, mutants, graded[..|graded| - 1]) + if Settling(grade, mutants, graded[|graded| - 1]) then 1 else 0
  }

  lemma {:induction false} UnsettledIsLocal(grade: Grade, mutants: int, configs: seq<Config>, id: string, row: Row,
      progress: Progress)
    requires forall k | 0 <= k < |configs| :: configs[k].id != id
    ensures Unsettled(grade, mutants, configs, progress[id := row]) == Unsettled(grade, mutants, configs, progress)
  {
    hide Settling;
    if |configs| != 0 {
      var (init, last) := (configs[..|configs| - 1], configs[|configs| - 1]);
      UnsettledIsLocal(grade, mutants, init, id, row, progress);
      SameEntry(grade, last, mutants, progress[id := row], progress);
    }
  }

  lemma SavedIsReusable(grade: Grade, mutants: int, c: Config, progress: Progress)
    ensures Settling(grade, mutants, c) ==>
      Reusable(c, mutants, progress[c.id := Marked(Graded(grade, c, mutants), mutants)])
  {
  }

  /** Saving a settling configuration settles exactly it. */
  lemma {:induction false} SavingSettles(grade: Grade, mutants: int, configs: seq<Config>, i: nat, progress: Progress)
    requires DistinctIds(configs) && i < |configs|
    requires !Reusable(configs[i], mutants, progress)
    ensures var after := progress[configs[i].id := Marked(Graded(grade, configs[i], mutants), mutants)];
      Unsettled(grade, mutants, configs, progress) ==
        Unsettled(grade, mutants, configs, after) + if Settling(grade, mutants, configs[i]) then 1 else 0
    decreases |configs|
  {
    hide Reusable, Settling, Marked, Graded;
    var (init, last, c) := (configs[..|configs| - 1], configs[|configs| - 1], configs[i]);
    var row := Marked(Graded(grade, c, mutants), mutants);
    SavedIsReusable(grade, mutants, c, progress);
    if i == |configs| - 1 {
      UnsettledIsLocal(grade, mutants, init, c.id, row, progress);
    } else {
      SavingSettles(grade, mutants, init, i, progress);
      SameEntry(grade, last, mutants, progress[c.id := row], progress);
    }
  }

  function One(b: bool): nat {
    if b then 1 else 0
  }

  lemma GradingsNext(grade: Grade, mutants: int, graded: seq<Config>, c: Config)
    ensures Gradings(grade, mutants, graded + [c])
        == Gradings(grade, mutants, graded) + One(Settling(grade, mutants, c))
  {
    assert (graded + [c])[..|graded|] == graded;
  }

  /** Work done plus work left, up to one grading lost to an interruption; and the file is what the
      process holds unless nothing was saved. */
  ghost predicate Accounted(grade: Grade, mutants: int, all: seq<Config>, begin: State, s: State) {
    && Gradings(grade, mutants, s.graded) + Unsettled(grade, mutants, all, s.progress)
       <= Unsettled(grade, mutants, all, begin.progress) + One(s.stopped)
    && (s.file == Some(s.progress) || (s.file == begin.file && s.progress == begin.progress))
  }

  lemma VisitAccounts(grade: Grade, mutants: int, all: seq<Config>, begin: State, s: State, c: Config)
    requires DistinctIds(all) && c in all && Accounted(grade, mutants, all, begin, s)
    ensures Accounted(grade, mutants, all, begin, Visit(grade, mutants, s, c))
  {
    hide Reusable, Settling, Marked, Graded, Unmarked, Gradings, Unsettled;
    GradingsNext(grade, mutants, s.graded, c);
    if !Reusable(c, mutants, s.progress) {
      var i :| 0 <= i < |all| && all[i] == c;
      SavingSettles(grade, mutants, all, i, s.progress);
    }
  }

  lemma {:induction false} RunAccounts(grade: Grade, mutants: int, all: seq<Config>, begin: State, configs: seq<Config>)
    requires DistinctIds(all) && (forall c | c in configs :: c in all) && begin.graded == [] && !begin.stopped
    ensures Accounted(grade, mutants, all, begin, RunOver(grade, mutants, begin, configs))
  {
    hide Visit, Unsettled, DistinctIds;
    if |configs| != 0 {
      var (init, c) := (configs[..|configs| - 1], configs[|configs| - 1]);
      RunAccounts(grade, mutants, all, begin, init);
      VisitAccounts(grade, mutants, all, begin, RunOver(grade, mutants, begin, init), c);
    }
  }

  lemma {:induction false} UnsettledAtMostAll(grade: Grade, mutants: int, configs: seq<Config>, progress: Progress)
    ensures Unsettled(grade, mutants, configs, progress) <= Unsettled(grade, mutants, configs, map[]) <= |configs|
  {
    if |configs| != 0 { UnsettledAtMostAll(grade, mutants, configs[..|configs| - 1], progress); }
  }

  /** Gradings of settling configurations over all the runs. */
  function TotalGradings(grade: Grade, configs: seq<Config>, file: Option<Progress>, starts: seq<Start>): nat {
    if |starts| == 0 then 0
    else
      TotalGradings(grade, configs, file, starts[..|starts| - 1])
      + Gradings(grade, starts[|starts| - 1].mutants, EndOf(grade, configs, file, starts).graded)
  }

  /** How many of the runs were interrupted. */
  function Interruptions(grade: Grade, configs: seq<Config>, file: Option<Progress>, starts: seq<Start>): nat {
    if |starts| == 0 then 0
    else
      Interruptions(grade, configs, file, starts[..|starts| - 1]) + One(EndOf(grade, configs, file, starts).stopped)
  }

  /** How many of the runs could not use what the run before had saved: the first, those that start
      over, and those for another sample size. */
  function FreshStarts(starts: seq<Start>): nat {
    if |starts| == 0 then 0
    else
      var (before, last) := (starts[..|starts| - 1], starts[|starts| - 1]);
      FreshStarts(before)
      + One(|before| == 0 || !last.resume || before[|before| - 1].mutants != last.mutants)
  }

  /** One more run: what it grades, and what it leaves unsettled for a run that resumes it. */
  lemma OneRunAccounts(grade: Grade, configs: seq<Config>, file: Option<Progress>, start: Start)
    requires DistinctIds(configs)
    ensures
      var (m, end) := (start.mutants, Ran(grade, configs, file, start));
      Gradings(grade, m, end.graded) + Unsettled(grade, m, configs, Load(end.file, true))
        <= Unsettled(grade, m, configs, Load(file, start.resume)) + One(end.stopped)
  {
    hide RunOver, Unsettled, Gradings, Chosen;
    var begin := Begin(file, start.resume, start.steps);
    ChosenAreConfigs(configs, start.only);
    RunAccounts(grade, start.mutants, configs, begin, Chosen(configs, start.only));
    UnsettledAtMostAll(grade, start.mutants, configs, Load(file, true));
  }

  /** However a report is interrupted and resumed, configurations that settle are graded at most
      once for each fresh start, plus once per interruption. */
  lemma {:induction false} GradedOncePlusInterruptions(
    grade: Grade, configs: seq<Config>, file: Option<Progress>, starts: seq<Start>)
    requires DistinctIds(configs) && |starts| > 0
    ensures TotalGradings(grade, configs, file, starts)
            + Unsettled(grade, starts[|starts| - 1].mutants, configs,
                Load(FileAfter(grade, configs, file, starts), true))
      <= |configs| * FreshStarts(starts) + Interruptions(grade, configs, file, starts)
  {
    hide Ran, Unsettled, Gradings;
    var (before, last) := (starts[..|starts| - 1], starts[|starts| - 1]);
    var left := FileAfter(grade, configs, file, before);
    OneRunAccounts(grade, configs, left, last);
    UnsettledAtMostAll(grade, last.mutants, configs, Load(left, last.resume));
    if |before| > 0 {
      GradedOncePlusInterruptions(grade, configs, file, before);
      if last.resume && before[|before| - 1].mutants == last.mutants {
        assert FreshStarts(starts) == FreshStarts(before);
      } else {
        assert FreshStarts(starts) == FreshStarts(before) + 1;
        assert |configs| * FreshStarts(starts) == |configs| * FreshStarts(before) + |configs|;
      }
    } else {
      assert FreshStarts(starts) == 1;
    }
  }
}
