/** Grading one configuration: the ladder of proofs D1 to D4. */
module Grading {

  datatype Policy = Default | Coarse | Scan

  /** One leg of the differential: whether every case stays inside the leg's bands. */
  datatype Differential = Differential(passed: bool, failing: seq<string>)

  /** The mutation judge on one leg. It raises when the unmutated file already fails there. */
  datatype Judgement = Caught(rate: real, sample: nat, caught: nat) | Raised(reason: string)

  /** The pipeline's tools on one job. */
  datatype Tools = Tools(
    lane: string, valid: bool, errors: seq<string>, interpreterPassed: bool,
    differ: Policy -> Differential, mutantsGenerated: nat, judge: Policy -> Judgement)

  datatype D1 = D1(passed: bool, lane: string)
  datatype D2 = NotLowered | Validated(ok: bool, errors: seq<string>)
  datatype D3 = NotCompared(blocker: string) | Compared(default: bool, coarse: bool, failing: seq<string>)
  datatype D4 =
    | NotJudged(blocker: string)
    | NoBaseline(failing: seq<string>, mutants: nat)
    | BaselineRaises(failures: seq<(Policy, string)>, policy: Policy, mutants: nat)
    | Judged(target: bool, policy: Policy, mutants: nat, rate: real, sample: nat, caught: nat)

  datatype Grades = Grades(d1: D1, d2: D2, d3: D3, d4: D4) {
    predicate Pass1() { d1.passed }
    predicate Pass2() { d2.Validated? && d2.ok }
    predicate Pass3() { d3.Compared? && d3.default }
    predicate Pass4() { d4.Judged? && d4.target }
    predicate PassAll() { Pass1() && Pass2() && Pass3() && Pass4() }
  }

  const TARGET := 0.95

  const NOT_LOWERED := "no native lowering"
  const NOT_VALID := "static validation failed"

  predicate IsNative(lane: string) {
    lane == "native_stock" || lane == "native_with_module"
  }

  /** The legs the judge is tried on, in order: those the unmutated file passes. */
  function Attempts(d3: D3): seq<Policy> {
    if d3.NotCompared? then []
    else if d3.default then [Default, Scan]
    else if d3.coarse then [Coarse]
    else []
  }

  /** Attempt `k` is the first on which the judge did not raise. */
  ghost predicate FirstJudged(tools: Tools, attempts: seq<Policy>, k: nat) {
    && k < |attempts| && tools.judge(attempts[k]).Caught?
    && forall j | 0 <= j < k :: tools.judge(attempts[j]).Raised?
  }

  /** D4 is what the judge said on attempt `k`, the first that did not raise. */
  ghost predicate JudgedAt(tools: Tools, attempts: seq<Policy>, d4: D4, k: nat) {
    && FirstJudged(tools, attempts, k)
    && var j := tools.judge(attempts[k]);
    && d4 == Judged(j.rate >= TARGET, attempts[k], tools.mutantsGenerated, j.rate, j.sample, j.caught)
  }

  ghost predicate AllRaise(tools: Tools, attempts: seq<Policy>) {
    forall j | 0 <= j < |attempts| :: tools.judge(attempts[j]).Raised?
  }

  /** The judge, retried over the attempts. */
  method Judge(tools: Tools, attempts: seq<Policy>) returns (d4: D4)
    requires |attempts| > 0
    ensures AllRaise(tools, attempts) ==>
      && d4.BaselineRaises? && d4.policy == attempts[|attempts| - 1] && d4.mutants == tools.mutantsGenerated
      && d4.failures == seq(|attempts|, j requires 0 <= j < |attempts| && tools.judge(attempts[j]).Raised? =>
           (attempts[j], tools.judge(attempts[j]).reason))
    ensures !AllRaise(tools, attempts) ==> exists k: nat :: JudgedAt(tools, attempts, d4, k)
  {
    var failures: seq<(Policy, string)> := [];
    for k := 0 to |attempts|
      invariant forall j | 0 <= j < k :: tools.judge(attempts[j]).Raised?
      invariant |failures| == k
      invariant forall j | 0 <= j < k :: failures[j] == (attempts[j], tools.judge(attempts[j]).reason)
    {
      var judgement := tools.judge(attempts[k]);
      if judgement.Caught? {
        d4 := Judged(judgement.rate >= TARGET, attempts[k], tools.mutantsGenerated,
                     judgement.rate, judgement.sample, judgement.caught);
        assert JudgedAt(tools, attempts, d4, k);
        return;
      }
      failures := failures + [(attempts[k], judgement.reason)];
    }
    d4 := BaselineRaises(failures, attempts[|attempts| - 1], tools.mutantsGenerated);
  }

  /** The first `n` of a list, or all of it. */
  predicate IsStart<T(==)>(start: seq<T>, list: seq<T>, n: nat) {
    start <= list && |start| == if |list| < n then |list| else n
  }

  /** The judge's answer on one leg, as it is recorded. */
  predicate IsVerdict(tools: Tools, d4: D4, leg: Policy) {
    && d4.Judged? && tools.judge(leg).Caught? && d4.policy == leg && d4.mutants == tools.mutantsGenerated
    && d4.rate == tools.judge(leg).rate && d4.sample == tools.judge(leg).sample && d4.caught == tools.judge(leg).caught
    && (d4.target <==> d4.rate >= 0.95)
  }

  /** D4 is judged on the leg the unmutated file passes: the default one, or the scan leg where the
      judge raises on that; the coarse one when only that passes; on none when neither does. Where
      the judge raises on every leg, each leg's reason is kept in order. */
  predicate IsD4(tools: Tools, default: bool, coarse: bool, failing: seq<string>, d4: D4) {
    if default then
      if tools.judge(Default).Caught? then IsVerdict(tools, d4, Default)
      else if tools.judge(Scan).Caught? then IsVerdict(tools, d4, Scan)
      else d4 == BaselineRaises(
        [(Default, tools.judge(Default).reason), (Scan, tools.judge(Scan).reason)], Scan, tools.mutantsGenerated)
    else if coarse then
      if tools.judge(Coarse).Caught? then IsVerdict(tools, d4, Coarse)
      else d4 == BaselineRaises([(Coarse, tools.judge(Coarse).reason)], Coarse, tools.mutantsGenerated)
    else d4.NoBaseline? && d4.mutants == tools.mutantsGenerated && d4.failing == failing
  }

  /** What a graded row means, rung by rung. */
  predicate IsGradeOf(tools: Tools, row: Grades) {
    && row.d1.lane == tools.lane && (row.d1.passed <==> tools.lane in {"native_stock", "native_with_module"})
    && if !row.d1.passed then
         && row.d2 == NotLowered
         && row.d3 == NotCompared("no native lowering") && row.d4 == NotJudged("no native lowering")
       else
         && row.d2.Validated? && row.d2.ok == tools.valid && IsStart(row.d2.errors, tools.errors, 5)
         && if !tools.valid then
              row.d3 == NotCompared("static validation failed") && row.d4 == NotJudged("static validation failed")
            else
              && row.d3.Compared?
              && row.d3.default == (tools.differ(Default).passed && tools.interpreterPassed)
              && row.d3.coarse == (tools.differ(Coarse).passed && tools.interpreterPassed)
              && IsStart(row.d3.failing, tools.differ(Default).failing, 10)
              && IsD4(tools, row.d3.default, row.d3.coarse, row.d3.failing, row.d4)
  }

  /** A row has one grade. */
  lemma GradeIsUnique(tools: Tools, a: Grades, b: Grades)
    requires IsGradeOf(tools, a) && IsGradeOf(tools, b)
    ensures a == b
  {
    if a.d2.Validated? && b.d2.Validated? { StartIsUnique(a.d2.errors, b.d2.errors, tools.errors, 5); }
    if a.d3.Compared? && b.d3.Compared? {
      StartIsUnique(a.d3.failing, b.d3.failing, tools.differ(Default).failing, 10);
    }
  }

  lemma StartIsUnique<T>(a: seq<T>, b: seq<T>, list: seq<T>, n: nat)
    requires IsStart(a, list, n) && IsStart(b, list, n)
    ensures a == b
  {
  }

  /** The legs in the order they are tried: the row is judged iff the judge answers on one of them. */
  lemma LegsAre(tools: Tools, row: Grades)
    requires IsGradeOf(tools, row)
    ensures row.d4.Judged? <==> !AllRaise(tools, Attempts(row.d3))
    ensures row.d4.Judged? ==> exists k: nat :: JudgedAt(tools, Attempts(row.d3), row.d4, k)
    ensures row.d4.BaselineRaises? <==> Attempts(row.d3) != [] && AllRaise(tools, Attempts(row.d3))
  {
    var legs := Attempts(row.d3);
    if |legs| > 0 && tools.judge(legs[0]).Caught? {
      assert JudgedAt(tools, legs, row.d4, 0);
    } else if |legs| > 1 && tools.judge(legs[1]).Caught? {
      assert JudgedAt(tools, legs, row.d4, 1);
    }
  }

  lemma JudgeGivesD4(tools: Tools, d3: D3, d4: D4)
    requires Attempts(d3) != []
    requires AllRaise(tools, Attempts(d3)) ==>
      && d4.BaselineRaises? && d4.policy == Attempts(d3)[|Attempts(d3)| - 1] && d4.mutants == tools.mutantsGenerated
      && d4.failures == seq(|Attempts(d3)|, j requires 0 <= j < |Attempts(d3)|
           && tools.judge(Attempts(d3)[j]).Raised? => (Attempts(d3)[j], tools.judge(Attempts(d3)[j]).reason))
    requires !AllRaise(tools, Attempts(d3)) ==> exists k: nat :: JudgedAt(tools, Attempts(d3), d4, k)
    ensures IsD4(tools, d3.default, d3.coarse, d3.failing, d4)
  {
    var legs := Attempts(d3);
    if AllRaise(tools, legs) {
      assert tools.judge(legs[0]).Raised? && d4.failures[0] == (legs[0], tools.judge(legs[0]).reason);
      if |legs| > 1 {
        assert tools.judge(legs[1]).Raised? && d4.failures[1] == (legs[1], tools.judge(legs[1]).reason);
      }
      assert d4.failures == d4.failures[..|legs|];
    } else {
      var k: nat :| JudgedAt(tools, legs, d4, k);
      assert k == 1 ==> tools.judge(legs[0]).Raised?;
    }
  }

  /** `grade`: each rung is only attempted when the one below it passes. */
  method Grade(tools: Tools) returns (row: Grades)
    ensures IsGradeOf(tools, row)
  {
    var d1 := D1(IsNative(tools.lane), tools.lane);
    if !d1.passed {
      return Grades(d1, NotLowered, NotCompared(NOT_LOWERED), NotJudged(NOT_LOWERED));
    }
    var d2 := Validated(tools.valid, tools.errors[..if |tools.errors| < 5 then |tools.errors| else 5]);
    if !tools.valid {
      return Grades(d1, d2, NotCompared(NOT_VALID), NotJudged(NOT_VALID));
    }
    var differential := tools.differ(Default);
    var coarse := tools.differ(Coarse);
    var failing := differential.failing[..if |differential.failing| < 10 then |differential.failing| else 10];
    var d3 := Compared(
      differential.passed && tools.interpreterPassed, coarse.passed && tools.interpreterPassed, failing);
    if Attempts(d3) == [] {
      return Grades(d1, d2, d3, NoBaseline(failing, tools.mutantsGenerated));
    }
    var d4 := Judge(tools, Attempts(d3));
    JudgeGivesD4(tools, d3, d4);
    row := Grades(d1, d2, d3, d4);
  }

  /** The ladder: D3 needs D2, D2 needs D1, and D4 needs D2 and a differential leg the unmutated
      file passed. */
  lemma Ladder(tools: Tools, row: Grades)
    requires IsGradeOf(tools, row)
    ensures row.Pass3() ==> row.Pass2()
    ensures row.Pass2() ==> row.Pass1()
    ensures row.Pass4() ==> row.Pass2() && (row.d3.default || row.d3.coarse)
    ensures row.PassAll() <==> row.Pass3() && row.Pass4()
  {
  }

  function Count(rows: seq<Grades>, p: Grades -> bool): nat {
    if |rows| == 0 then 0
    else Count(rows[..|rows| - 1], p) + if p(rows[|rows| - 1]) then 1 else 0
  }

  lemma {:induction false} CountMonotone(rows: seq<Grades>, p: Grades -> bool, q: Grades -> bool)
    requires forall k | 0 <= k < |rows| :: p(rows[k]) ==> q(rows[k])
    ensures Count(rows, p) <= Count(rows, q) <= |rows|
  {
    if |rows| != 0 { CountMonotone(rows[..|rows| - 1], p, q); }
  }

  /** The report's summary over graded rows: d1 >= d2 >= d3, d2 >= d4, and `all_four` is at most
      each count. */
  lemma SummaryIsOrdered(tools: seq<Tools>, rows: seq<Grades>)
    requires |tools| == |rows| && forall k | 0 <= k < |rows| :: IsGradeOf(tools[k], rows[k])
    ensures Count(rows, (r: Grades) => r.Pass3()) <= Count(rows, (r: Grades) => r.Pass2())
    ensures Count(rows, (r: Grades) => r.Pass2()) <= Count(rows, (r: Grades) => r.Pass1()) <= |rows|
    ensures Count(rows, (r: Grades) => r.Pass4()) <= Count(rows, (r: Grades) => r.Pass2())
    ensures Count(rows, (r: Grades) => r.PassAll()) <= Count(rows, (r: Grades) => r.Pass3())
    ensures Count(rows, (r: Grades) => r.PassAll()) <= Count(rows, (r: Grades) => r.Pass4())
  {
    forall k | 0 <= k < |rows| ensures
      && (rows[k].Pass3() ==> rows[k].Pass2()) && (rows[k].Pass2() ==> rows[k].Pass1())
      && (rows[k].Pass4() ==> rows[k].Pass2())
    {
      Ladder(tools[k], rows[k]);
    }
    CountMonotone(rows, (r: Grades) => r.Pass3(), (r: Grades) => r.Pass2());
    CountMonotone(rows, (r: Grades) => r.Pass2(), (r: Grades) => r.Pass1());
    CountMonotone(rows, (r: Grades) => r.Pass4(), (r: Grades) => r.Pass2());
    CountMonotone(rows, (r: Grades) => r.PassAll(), (r: Grades) => r.Pass3());
    CountMonotone(rows, (r: Grades) => r.PassAll(), (r: Grades) => r.Pass4());
  }

  /** D4 does not need D3: a row may be judged on the coarse leg. */
  lemma JudgedWithoutD3()
    ensures exists tools: Tools, row: Grades :: IsGradeOf(tools, row) && row.Pass4() && !row.Pass3()
  {
    var differ := (p: Policy) => Differential(p.Coarse?, []);
    var judge := (p: Policy) => Caught(1.0, 1, 1);
    var tools := Tools("native_stock", true, [], true, differ, 1, judge);
    var row := Grades(D1(true, "native_stock"), Validated(true, []), Compared(false, true, []),
        Judged(true, Coarse, 1, 1.0, 1, 1));
    assert JudgedAt(tools, Attempts(row.d3), row.d4, 0);
    assert IsGradeOf(tools, row);
  }
}
