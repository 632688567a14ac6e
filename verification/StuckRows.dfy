/** Which graded rows a resumed report grades again. */
module StuckRows {
  import opened Text
  import opened Grading
  import opened Coverage
  import opened Resume

  function Joined(parts: seq<string>, separator: string): string {
    if |parts| == 0 then ""
    else if |parts| == 1 then parts[0]
    else Joined(parts[..|parts| - 1], separator) + separator + parts[|parts| - 1]
  }

  function PolicyName(policy: Policy): string {
    match policy
    case Default => "default"
    case Coarse => "coarse-module-tick"
    case Scan => "scan-module-tick"
  }

  function Failures(failures: seq<(Policy, string)>): seq<string> {
    seq(|failures|, k requires 0 <= k < |failures| => PolicyName(failures[k].0) + ": " + failures[k].1)
  }

  const OFF_THE_BANDS := "D3: the unmutated .bog leaves the bands on "

  /** The reason a D4 entry carries when it was not judged. */
  function BlockerText(d4: D4): Option<string> {
    match d4
    case NotJudged(blocker) => Some(blocker)
    case NoBaseline(failing, _) =>
      var named := Joined(if |failing| < 3 then failing else failing[..3], ", ");
      Some(OFF_THE_BANDS + named + "; a catch rate would count that, not defects")
    case BaselineRaises(failures, _, _) => Some("baseline: " + Joined(Failures(failures), " | "))
    case Judged(_, _, _, _, _, _) => None
  }

  function Written(d4: D4): Json {
    var blocker := BlockerText(d4);
    var passed: map<string, Json> := map["passed" := Bool(d4.Judged? && d4.target)];
    Object(if blocker.Some? then passed["blocker" := Str(blocker.value)] else passed)
  }

  /** A graded row is stuck, so that a Tier 2 configuration is graded again on every resume, iff
      there was a leg to judge on and the judge raised on every one. */
  lemma StuckIffEveryLegRaises(tools: Tools, grades: Grades, row: Row)
    requires IsGradeOf(tools, grades) && "d4" in row && row["d4"] == Written(grades.d4)
    ensures IsBaselineBlocked(row) <==> Attempts(grades.d3) != [] && AllRaise(tools, Attempts(grades.d3))
  {
    var text := BlockerText(grades.d4);
    LegsAre(tools, grades);
    match grades.d4
    case NotJudged(_) => assert text.value[0] != "baseline:"[0];
    case NoBaseline(failing, _) => assert text.value[0] == OFF_THE_BANDS[0] != "baseline:"[0];
    case BaselineRaises(failures, _, _) => assert text.value[..9] == "baseline:";
    case Judged(_, _, _, _, _, _) =>
  }

  /** So a configuration whose grading ends with such a row settles iff it is in Tier 1 or the
      judge answered (or was never asked). */
  lemma SettlesIffJudgeAnswers(grade: Grade, mutants: int, c: Config, tools: Tools, grades: Grades)
    requires IsGradeOf(tools, grades) && c.blocked.None?
    requires "d4" in grade(c, mutants) && grade(c, mutants)["d4"] == Written(grades.d4)
    ensures Settling(grade, mutants, c) <==>
      c.tierOne || Attempts(grades.d3) == [] || !AllRaise(tools, Attempts(grades.d3))
  {
    hide IsGradeOf, Written, AllRaise;
    var row := Coverage.Marked(Graded(grade, c, mutants), mutants);
    assert row["d4"] == grade(c, mutants)["d4"] by {
      assert "d4" != "_mutants" && "d4" != "_v" by { assert "d4"[0] != "_v"[0]; assert "d4"[0] != "_mutants"[0]; }
    }
    StuckIffEveryLegRaises(tools, grades, row);
  }
}
