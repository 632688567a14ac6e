/** What a finished run of the coverage report writes, field by field: each row, which configurations
    are graded again, and the progress file. */
module ReportRows {
  import opened Text
  import opened Coverage
  import opened Resume

  /** The row is `base` with `over` laid on it, without the two marks of the progress file. */
  ghost predicate IsLaid(row: Row, base: Row, over: Row) {
    && (forall f :: f in row <==> f != "_mutants" && f != "_v" && (f in base || f in over))
    && forall f | f in row :: row[f] == if f in over then over[f] else base[f]
  }

  /** The same with the marks: the sample size and the version of the grading. */
  ghost predicate IsSaved(row: Row, base: Row, over: Row, mutants: int) {
    && (forall f :: f in row <==> f == "_mutants" || f == "_v" || f in base || f in over)
    && row["_mutants"] == Number(mutants) && row["_v"] == Number(3)
    && forall f | f in row && f != "_mutants" && f != "_v" :: row[f] == if f in over then over[f] else base[f]
  }

  /** The judge raised on the unmutated file. */
  predicate IsStuck(row: Row) {
    && "d4" in row && row["d4"].Object? && "blocker" in row["d4"].fields
    && row["d4"].fields["blocker"].Str? && "baseline:" <= row["d4"].fields["blocker"].s
  }

  /** The run takes the configuration's row from the progress file it found. */
  predicate IsCached(file: Option<Progress>, resume: bool, c: Config, mutants: int) {
    && resume && file.Some? && c.id in file.value
    && var row := file.value[c.id];
    && "_mutants" in row && row["_mutants"] == Number(mutants) && "_v" in row && row["_v"] == Number(3)
    && (c.tierOne || !IsStuck(row))
  }

  lemma CachedIs(file: Option<Progress>, resume: bool, c: Config, mutants: int)
    ensures IsCached(file, resume, c, mutants) <==> Reusable(c, mutants, Load(file, resume))
  {
    if resume && file.Some? && c.id in file.value { StuckIs(file.value[c.id]); }
    hide IsStuck, IsBaselineBlocked;
  }

  lemma StuckIs(row: Row)
    ensures IsStuck(row) <==> IsBaselineBlocked(row)
  {
    var d4 := Field(row, "d4");
    assert IsStuck(row) ==> d4 == row["d4"] && d4.Object?;
    assert IsBaselineBlocked(row) ==> "d4" in row && d4 == row["d4"] && d4.Object?;
    if d4.Object? {
      var blocker := Field(d4.fields, "blocker");
      assert IsBaselineBlocked(row) <==> blocker.Str? && "baseline:" <= blocker.s;
      assert blocker.Str? ==> "blocker" in d4.fields;
      assert IsStuck(row) <==> blocker.Str? && "baseline:" <= blocker.s;
    }
  }

  lemma SavedIs(grade: Grade, c: Config, mutants: int)
    ensures IsSaved(Coverage.Marked(Graded(grade, c, mutants), mutants), c.base, grade(c, mutants), mutants)
  {
    MarkNames();
  }

  /** What lies on the base of a configuration's row: its recorded blocker, its row in the progress
      file, or its grades. */
  function Over(grade: Grade, mutants: int, file: Option<Progress>, resume: bool, c: Config): Row {
    if c.blocked.Some? then c.blocked.value
    else if IsCached(file, resume, c, mutants) then file.value[c.id]
    else grade(c, mutants)
  }

  lemma ItemIsLaid(grade: Grade, mutants: int, file: Option<Progress>, resume: bool, c: Config)
    ensures IsLaid(ResumedItem(grade, mutants, c, Load(file, resume)), c.base, Over(grade, mutants, file, resume, c))
  {
    CachedIs(file, resume, c, mutants);
    hide Reusable, IsStuck;
  }

  // ---------------------------------------------------------------- what is graded and saved

  ghost predicate IsGradedId(graded: seq<Config>, id: string) {
    exists c :: c in graded && c.id == id
  }

  /** So far: the configurations graded are those neither blocked nor reusable, in order; their
      entries are saved and the others are as loaded. */
  ghost predicate Saves(grade: Grade, mutants: int, begin: State, visited: seq<Config>, s: State) {
    && (forall c :: c in s.graded <==> c in visited && c.blocked.None? && !Reusable(c, mutants, begin.progress))
    && (forall c | c in s.graded ::
         c.id in s.progress && s.progress[c.id] == Coverage.Marked(Graded(grade, c, mutants), mutants))
    && (forall id | !IsGradedId(s.graded, id) ::
         (id in s.progress <==> id in begin.progress) && (id in s.progress ==> s.progress[id] == begin.progress[id]))
    && s.file == if |s.graded| == 0 then begin.file else Some(s.progress)
  }

  lemma VisitSaves(grade: Grade, mutants: int, begin: State, visited: seq<Config>, s: State, c: Config)
    requires Saves(grade, mutants, begin, visited, s) && NotVisited(visited, c.id)
    requires !Visit(grade, mutants, s, c).stopped
    ensures Saves(grade, mutants, begin, visited + [c], Visit(grade, mutants, s, c))
  {
    hide Reusable, Graded, Coverage.Marked, Unmarked;
    forall other | other in s.graded ensures other.id != c.id { assert other in visited; }
    SameEntry(grade, c, mutants, s.progress, begin.progress);
    if c.blocked.Some? || Reusable(c, mutants, s.progress) {
      assert forall other :: other in visited + [c] <==> other in visited || other == c;
    } else {
      SavesOneMore(grade, mutants, begin, visited, s, c);
    }
  }

  lemma OneMoreGraded(graded: seq<Config>, c: Config)
    ensures forall id :: IsGradedId(graded + [c], id) <==> IsGradedId(graded, id) || id == c.id
    ensures forall other :: other in graded + [c] <==> other in graded || other == c
  {
    forall id ensures IsGradedId(graded + [c], id) <==> IsGradedId(graded, id) || id == c.id {
      assert c in graded + [c];
      if other :| other in graded && other.id == id { assert other in graded + [c]; }
    }
  }

  lemma SavesOneMore(grade: Grade, mutants: int, begin: State, visited: seq<Config>, s: State, c: Config)
    requires Saves(grade, mutants, begin, visited, s) && forall other | other in s.graded :: other.id != c.id
    requires c.blocked.None? && !Reusable(c, mutants, s.progress) && !Reusable(c, mutants, begin.progress)
    requires !Visit(grade, mutants, s, c).stopped
    ensures Saves(grade, mutants, begin, visited + [c], Visit(grade, mutants, s, c))
  {
    hide Reusable, Graded, Coverage.Marked, Unmarked, IsGradedId;
    var s' := Visit(grade, mutants, s, c);
    assert s'.progress == s.progress[c.id := Coverage.Marked(Graded(grade, c, mutants), mutants)]
      && s'.graded == s.graded + [c] && s'.file == Some(s'.progress);
    hide Visit;
    OneMoreGraded(s.graded, c);
    assert forall other :: other in visited + [c] <==> other in visited || other == c;
  }

  lemma {:induction false} RunSaves(grade: Grade, mutants: int, begin: State, configs: seq<Config>)
    requires DistinctIds(configs) && begin.graded == [] && !begin.stopped
    requires !RunOver(grade, mutants, begin, configs).stopped
    ensures Saves(grade, mutants, begin, configs, RunOver(grade, mutants, begin, configs))
  {
    DistinctInit(configs);
    if |configs| != 0 {
      var (init, c) := (configs[..|configs| - 1], configs[|configs| - 1]);
      assert init + [c] == configs;
      hide Visit, DistinctIds, Saves, NotVisited;
      if RunOver(grade, mutants, begin, init).stopped {
        VisitStopped(grade, mutants, RunOver(grade, mutants, begin, init), c);
      }
      RunSaves(grade, mutants, begin, init);
      VisitSaves(grade, mutants, begin, init, RunOver(grade, mutants, begin, init), c);
    }
  }

  /** A finished run: a row for each configuration, made of its base and its blocker, cached row or
      grades; graded exactly those that are neither blocked nor cached; and, unless nothing was
      graded, a progress file that holds their rows and otherwise what was loaded. */
  lemma FinishedRun(grade: Grade, mutants: int, file: Option<Progress>, resume: bool, steps: nat, configs: seq<Config>)
    requires DistinctIds(configs)
    requires !RunOver(grade, mutants, Begin(file, resume, steps), configs).stopped
    ensures
      var end := RunOver(grade, mutants, Begin(file, resume, steps), configs);
      && |end.items| == |configs|
      && (forall k | 0 <= k < |configs| ::
           IsLaid(end.items[k], configs[k].base, Over(grade, mutants, file, resume, configs[k])))
      && (forall c :: c in end.graded <==> c in configs && c.blocked.None? && !IsCached(file, resume, c, mutants))
      && (if |end.graded| == 0 then end.file == file else end.file.Some? && end.file.value == end.progress)
      && (forall c | c in end.graded ::
           c.id in end.progress && IsSaved(end.progress[c.id], c.base, grade(c, mutants), mutants))
      && forall id | !IsGradedId(end.graded, id) ::
           && (id in end.progress <==> resume && file.Some? && id in file.value)
           && (id in end.progress ==> end.progress[id] == file.value[id])
  {
    hide RunOver, IsLaid, Over, Reusable, IsCached, ResumedItem, IsSaved, Coverage.Marked, Graded, DistinctIds;
    var begin := Begin(file, resume, steps);
    RunRows(grade, mutants, begin, configs);
    RunSaves(grade, mutants, begin, configs);
    forall c: Config ensures IsCached(file, resume, c, mutants) <==> Reusable(c, mutants, begin.progress) {
      CachedIs(file, resume, c, mutants);
    }
    forall c: Config
      ensures IsLaid(ResumedItem(grade, mutants, c, begin.progress), c.base, Over(grade, mutants, file, resume, c))
    {
      ItemIsLaid(grade, mutants, file, resume, c);
    }
    forall c: Config
      ensures IsSaved(Coverage.Marked(Graded(grade, c, mutants), mutants), c.base, grade(c, mutants), mutants)
    {
      SavedIs(grade, c, mutants);
    }
  }
}
