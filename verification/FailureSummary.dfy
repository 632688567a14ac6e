/** What a failure summary says, read off the artifacts. */
module FailureSummaries {
  import opened Text
  import opened Counterexamples

  // ---------------------------------------------------------------- the counterexample it shows

  predicate Has(j: Json, name: string, value: Json) {
    j.Object? && name in j.fields && j.fields[name] == value
  }

  /** `j[name]`, or nothing. */
  predicate IsAt(j: Json, name: string, value: Json) {
    if j.Object? && name in j.fields then value == j.fields[name] else value == Null
  }

  predicate AreNumbers(items: seq<Json>) {
    forall k | 0 <= k < |items| :: items[k].Int? || items[k].Float?
  }

  /** A trajectory counterexample the model may be shown, with its samples and where they start. */
  predicate IsShown(value: Json, times: seq<Json>, values: seq<Json>, first: int) {
    && Has(value, "schema", Str("bactalk.trajectory-counterexample/v1"))
    && "window" in value.fields && Has(value.fields["window"], "test_times", List(times))
    && Has(value.fields["window"], "test_values", List(values))
    && Has(value.fields["window"], "start_index", Int(first))
    && |times| == |values| && |times| > 0 && AreNumbers(times) && AreNumbers(values)
    && "peak_error_time" in value.fields
    && (var peak := value.fields["peak_error_time"]; peak.Int? || peak.Float? || peak.NonFinite?)
  }

  lemma ShownIsUsable(value: Json)
    ensures IsUsable(value) <==> exists times, values, first :: IsShown(value, times, values, first)
    ensures IsUsable(value) ==>
      IsShown(value, Times(value), Values(value), Field(Field(value, "window"), "start_index").n)
    ensures forall times, values, first | IsShown(value, times, values, first) ::
      times == Times(value) && values == Values(value) && first == Field(Field(value, "window"), "start_index").n
  {
    forall times, values, first | IsShown(value, times, values, first)
      ensures IsUsable(value) && times == Times(value) && values == Values(value)
      ensures first == Field(Field(value, "window"), "start_index").n
    {
      assert Field(value, "window") == value.fields["window"];
    }
    if IsUsable(value) {
      assert IsShown(value, Times(value), Values(value), Field(Field(value, "window"), "start_index").n);
    }
  }

  function AsReal(j: Json): real {
    match j
    case Int(n) => n as real
    case Float(x) => x
    case _ => 0.0
  }

  function Distance(a: real, b: real): real {
    if a < b then b - a else a - b
  }

  /** The first sample nearest the peak; the first of all when the peak is no number. */
  predicate IsPeak(times: seq<Json>, peak: Json, i: nat) {
    && i < |times|
    && if peak.NonFinite? then i == 0
       else
         && (forall j | 0 <= j < |times| ::
              Distance(AsReal(times[i]), AsReal(peak)) <= Distance(AsReal(times[j]), AsReal(peak)))
         && forall j | 0 <= j < i ::
              Distance(AsReal(times[i]), AsReal(peak)) < Distance(AsReal(times[j]), AsReal(peak))
  }

  /** The range kept around the peak: 25 samples, or all of them, from 12 before the peak on, moved
      back as far as the end of the samples asks and no further than their start. */
  predicate IsKeptRange(n: nat, peak: nat, start: nat, end: nat) {
    && start <= end <= n && end - start == (if n < 25 then n else 25)
    && start == if peak < 12 || n < 25 then 0 else if peak - 12 + 25 <= n then peak - 12 else n - 25
  }

  /** The samples kept, as floats. */
  predicate AreFloats(items: seq<Json>, from: seq<Json>, start: nat, end: nat)
    requires start <= end <= |from|
  {
    |items| == end - start && forall k | 0 <= k < |items| :: items[k] == Float(AsReal(from[start + k]))
  }

  /** The record shown for a counterexample: its fields, the kept samples and where they stood. */
  ghost predicate IsClip(value: Json, clip: Json) {
    exists times, values, first, i, start, end ::
      IsShown(value, times, values, first) && IsPeak(times, value.fields["peak_error_time"], i)
      && IsKeptRange(|times|, i, start, end) && IsClipOf(value, times, values, first, start, end, clip)
  }

  ghost predicate IsClipOf(value: Json, times: seq<Json>, values: seq<Json>, first: int, start: nat, end: nat,
      clip: Json)
  {
    && start <= end <= |times| == |values| && clip.Object?
    && (forall name :: name in clip.fields <==> name in {"schema", "violation_count", "first_violation_time",
          "last_violation_time", "peak_error_time", "peak_error", "peak_absolute_error", "context_samples",
          "window_truncated_for_model", "window"})
    && (forall name | name in clip.fields && name !in {"window_truncated_for_model", "window"} ::
         IsAt(value, name, clip.fields[name]))
    && clip.fields["window_truncated_for_model"] == Bool(|times| > 25)
    && IsWindow(times, values, first, start, end, clip.fields["window"])
  }

  predicate IsWindow(times: seq<Json>, values: seq<Json>, first: int, start: nat, end: nat, window: Json)
    requires start <= end <= |times| == |values|
  {
    && window.Object?
    && window.fields.Keys == {"start_index", "end_index", "test_times", "test_values"}
    && window.fields["start_index"] == Int(first + start) && window.fields["end_index"] == Int(first + end - 1)
    && window.fields["test_times"].List? && AreFloats(window.fields["test_times"].items, times, start, end)
    && window.fields["test_values"].List? && AreFloats(window.fields["test_values"].items, values, start, end)
  }

  lemma PeakIs(value: Json)
    requires IsUsable(value)
    ensures IsPeak(Times(value), Field(value, "peak_error_time"), PeakIndex(value))
  {
    var (times, peak) := (Times(value), Field(value, "peak_error_time"));
    if !peak.NonFinite? {
      var numbers := Numbers(times);
      var i := PeakIndex(value);
      assert IsNearest(numbers, Number(peak), i);
      forall j | 0 <= j < |times| ensures numbers[j] == AsReal(times[j])
        && Abs(numbers[j] - Number(peak)) == Distance(AsReal(times[j]), AsReal(peak)) { }
    }
  }

  lemma RangeIs(value: Json)
    requires IsUsable(value)
    ensures PeakIndex(value) < |Times(value)|
    ensures IsKeptRange(|Times(value)|, PeakIndex(value), Range(value).0, Range(value).1)
  {
    hide PeakIndex, IsUsable, Times;
    PeakIndexInRange(value);
  }

  lemma WindowIs(value: Json)
    requires IsUsable(value)
    ensures IsWindow(Times(value), Values(value), Field(Field(value, "window"), "start_index").n,
      Range(value).0, Range(value).1, Object(KeptWindow(value)))
  {
    hide PeakIndex, Times, Values, Range;
    var window := KeptWindow(value);
    WindowNames();
    assert window.Keys == {"start_index", "end_index", "test_times", "test_values"};
    assert |Times(value)| == |Values(value)|;
  }

  lemma WindowNames()
    ensures "start_index" != "end_index" && "start_index" != "test_times" && "start_index" != "test_values"
    ensures "end_index" != "test_times" && "end_index" != "test_values" && "test_times" != "test_values"
  {
    assert "start_index"[0] != "end_index"[0] && "start_index"[0] != "test_times"[0];
    assert "end_index"[0] != "test_times"[0];
    assert |"test_times"| != |"test_values"|;
  }

  /** What is shown of a counterexample is its clip, and nothing is shown of what is none. */
  lemma BoundedIsClip(value: Json)
    ensures Bounded(value).Some? <==> exists times, values, first :: IsShown(value, times, values, first)
    ensures Bounded(value).Some? ==> IsClip(value, Bounded(value).value)
  {
    ShownIsUsable(value);
    if IsUsable(value) {
      PeakIs(value);
      RangeIs(value);
      WindowIs(value);
      ClipIs(value);
      hide IsUsable, IsShown, IsPeak, IsKeptRange, IsClipOf, Range, PeakIndex, Times, Values;
      var (start, end) := Range(value);
    }
  }

  lemma ClipIs(value: Json)
    requires IsUsable(value)
    requires IsWindow(Times(value), Values(value), Field(Field(value, "window"), "start_index").n,
      Range(value).0, Range(value).1, Object(KeptWindow(value)))
    ensures IsClipOf(value, Times(value), Values(value), Field(Field(value, "window"), "start_index").n,
      Range(value).0, Range(value).1, Bounded(value).value)
  {
    hide IsWindow, Range, KeptWindow, Times, Values;
    MarksAreNotPassedThrough();
  }

  // ---------------------------------------------------------------- one summary

  predicate IsCut(text: string, whole: string, n: nat) {
    text <= whole && |text| == if |whole| < n then |whole| else n
  }

  /** The first two parts of a context, which slashes divide. */
  ghost predicate NamesLane(context: string, lane: string, caseId: string) {
    if '/' in context then
      '/' !in lane && '/' !in caseId && exists rest ::
        context == lane + "/" + rest && (rest == caseId || caseId + "/" <= rest)
    else lane == context && caseId == ""
  }

  /** A field of the oracle as text, "unknown" when it has none, cut. */
  predicate IsText(show: Json -> string, oracle: Json, name: string, n: nat, text: string)
    requires oracle.Object?
  {
    IsCut(text, if name in oracle.fields then show(oracle.fields[name]) else "unknown", n)
  }

  ghost predicate IsSummarized(artifact: Json) {
    && Has(artifact, "schema", Str("bactalk.oracle-counterexample/v1"))
    && "oracle" in artifact.fields && artifact.fields["oracle"].Object? && "counterexample" in artifact.fields
    && exists times, values, first :: IsShown(artifact.fields["counterexample"], times, values, first)
  }

  ghost predicate IsSummary(show: Json -> string, context: string, artifact: Json, s: Summary)
    requires IsSummarized(artifact)
  {
    var (oracle, value) := (artifact.fields["oracle"], artifact.fields["counterexample"]);
    && (exists lane, caseId :: NamesLane(context, lane, caseId) && IsCut(s.lane, lane, 40)
          && IsCut(s.caseId, if caseId == "" then "single-run" else caseId, 120))
    && IsText(show, oracle, "id", 120, s.oracleId) && IsText(show, oracle, "signal_kind", 40, s.signalKind)
    && IsText(show, oracle, "signal", 240, s.signal)
    && IsAt(oracle, "absolute_value_tolerance", s.tolerance) && IsAt(value, "peak_absolute_error", s.maxError)
    && IsClip(value, s.counterexample)
  }

  lemma LaneIs(context: string)
    ensures
      var (lane, rest) := Partition(context, '/');
      NamesLane(context, lane, Partition(rest, '/').0)
  {
    var (lane, rest) := Partition(context, '/');
    var (caseId, more) := Partition(rest, '/');
    PartitionSplits(context, '/');
    PartitionSplits(rest, '/');
    if '/' in context {
      assert context == lane + "/" + rest;
      if '/' in rest { assert rest == caseId + "/" + more; }
    }
  }

  lemma TakeIsCut(whole: string, n: nat)
    ensures IsCut(Take(whole, n), whole, n)
  {
  }

  lemma NothingIsShown()
    ensures forall times, values, first :: !IsShown(Null, times, values, first)
  {
  }

  lemma MaxErrorIs(value: Json)
    requires Bounded(value).Some?
    ensures IsAt(value, "peak_absolute_error", Field(Bounded(value).value, "peak_absolute_error"))
  {
    RecordFields(value, |Times(value)| > MAX_SAMPLES, Object(KeptWindow(value)));
    assert "peak_absolute_error" in PassedThrough();
  }

  /** An artifact is summarized iff it is an oracle counterexample the model may be shown, and its
      summary says what the artifact says. */
  lemma SummaryIs(show: Json -> string, context: string, artifact: Json)
    ensures Summarize(show, context, artifact).Some? <==> IsSummarized(artifact)
    ensures IsSummarized(artifact) ==> IsSummary(show, context, artifact, Summarize(show, context, artifact).value)
  {
    var (oracle, value) := (Field(artifact, "oracle"), Field(artifact, "counterexample"));
    BoundedIsClip(value);
    NothingIsShown();
    assert Summarize(show, context, artifact).Some? <==> IsSummarized(artifact) by {
      hide Bounded, IsShown, IsClip, Partition, OracleText, Take;
    }
    if IsSummarized(artifact) {
      MaxErrorIs(value);
      SummaryFields(show, context, artifact);
    }
  }

  /** The parts a summary is made of. */
  lemma SummaryParts(show: Json -> string, context: string, artifact: Json)
    requires IsSummarized(artifact) && Summarize(show, context, artifact).Some?
    ensures
      var (oracle, value) := (artifact.fields["oracle"], artifact.fields["counterexample"]);
      var (lane, rest) := Partition(context, '/');
      var caseId := Partition(rest, '/').0;
      && Bounded(value).Some?
      && Summarize(show, context, artifact).value == Summary(
           Take(lane, 40), Take(if caseId == "" then "single-run" else caseId, 120),
           OracleText(show, oracle, "id", 120), OracleText(show, oracle, "signal_kind", 40),
           OracleText(show, oracle, "signal", 240), Field(oracle, "absolute_value_tolerance"),
           Field(Bounded(value).value, "peak_absolute_error"), Bounded(value).value)
  {
    hide Bounded, IsShown, Partition, OracleText, Take;
  }

  lemma OracleTextIs(show: Json -> string, oracle: Json, name: string, n: nat)
    requires oracle.Object?
    ensures IsText(show, oracle, name, n, OracleText(show, oracle, name, n))
  {
    TakeIsCut(if name in oracle.fields then show(oracle.fields[name]) else "unknown", n);
    hide Take, IsCut;
  }

  lemma SummaryFields(show: Json -> string, context: string, artifact: Json)
    requires IsSummarized(artifact) && Bounded(artifact.fields["counterexample"]).Some?
    requires IsClip(artifact.fields["counterexample"], Bounded(artifact.fields["counterexample"]).value)
    requires IsAt(artifact.fields["counterexample"], "peak_absolute_error",
      Field(Bounded(artifact.fields["counterexample"]).value, "peak_absolute_error"))
    requires Summarize(show, context, artifact).Some?
    ensures IsSummary(show, context, artifact, Summarize(show, context, artifact).value)
  {
    hide Bounded, IsClip, Partition, Take, IsCut, NamesLane, IsShown, IsText, OracleText, Summarize;
    SummaryParts(show, context, artifact);
    var oracle := artifact.fields["oracle"];
    var (lane, rest) := Partition(context, '/');
    var caseId := Partition(rest, '/').0;
    LaneIs(context);
    TakeIsCut(lane, 40);
    TakeIsCut(if caseId == "" then "single-run" else caseId, 120);
    OracleTextIs(show, oracle, "id", 120);
    OracleTextIs(show, oracle, "signal_kind", 40);
    OracleTextIs(show, oracle, "signal", 240);
  }

  // ---------------------------------------------------------------- all of them

  ghost predicate IsSummaryAt(show: Json -> string, artifacts: seq<(string, Json)>, place: nat, s: Summary) {
    && place < |artifacts| && IsSummarized(artifacts[place].1)
    && IsSummary(show, artifacts[place].0, artifacts[place].1, s)
  }

  /** One summary for each artifact that is summarized, in their order. */
  ghost predicate AreSummaries(show: Json -> string, artifacts: seq<(string, Json)>, summaries: seq<Summary>,
      places: seq<nat>)
  {
    && |places| == |summaries|
    && (forall k | 0 <= k < |places| :: IsSummaryAt(show, artifacts, places[k], summaries[k]))
    && (forall k, l | 0 <= k < l < |places| :: places[k] < places[l])
    && forall i: nat | i < |artifacts| && IsSummarized(artifacts[i].1) :: i in places
  }

  lemma SummaryStays(show: Json -> string, artifacts: seq<(string, Json)>, n: nat, place: nat, s: Summary)
    requires n < |artifacts| && IsSummaryAt(show, artifacts[..n], place, s)
    ensures place < n && IsSummaryAt(show, artifacts[..n + 1], place, s)
  {
    hide IsSummary, IsSummarized;
  }

  lemma SummariesStay(show: Json -> string, artifacts: seq<(string, Json)>, summaries: seq<Summary>,
      places: seq<nat>, n: nat)
    requires n < |artifacts| && AreSummaries(show, artifacts[..n], summaries, places)
    ensures |places| == |summaries| && forall k, l | 0 <= k < l < |places| :: places[k] < places[l]
    ensures forall k | 0 <= k < |places| ::
      places[k] < n && IsSummaryAt(show, artifacts[..n + 1], places[k], summaries[k])
    ensures forall i: nat | i < n && IsSummarized(artifacts[i].1) :: i in places
  {
    hide IsSummaryAt, IsSummarized;
    forall k | 0 <= k < |places|
      ensures places[k] < n && IsSummaryAt(show, artifacts[..n + 1], places[k], summaries[k])
    {
      SummaryStays(show, artifacts, n, places[k], summaries[k]);
    }
    forall i: nat | i < n && IsSummarized(artifacts[i].1) ensures i in places {
      assert artifacts[..n][i] == artifacts[i];
    }
  }

  lemma OneMoreSummary(show: Json -> string, artifacts: seq<(string, Json)>, summaries: seq<Summary>,
      places: seq<nat>, n: nat, s: Summary)
    requires n < |artifacts| && AreSummaries(show, artifacts[..n], summaries, places)
    requires IsSummarized(artifacts[n].1) && IsSummary(show, artifacts[n].0, artifacts[n].1, s)
    ensures AreSummaries(show, artifacts[..n + 1], summaries + [s], places + [n])
  {
    assert IsSummaryAt(show, artifacts[..n + 1], n, s) by { hide IsSummary, IsSummarized; }
    hide IsSummaryAt, IsSummarized, IsSummary;
    SummariesStay(show, artifacts, summaries, places, n);
    var (all, more) := (artifacts[..n + 1], places + [n]);
    forall i: nat | i < |all| && IsSummarized(all[i].1) ensures i in more {
      if i == n { assert more[|places|] == n; }
    }
  }

  lemma NoMoreSummary(show: Json -> string, artifacts: seq<(string, Json)>, summaries: seq<Summary>,
      places: seq<nat>, n: nat)
    requires n < |artifacts| && AreSummaries(show, artifacts[..n], summaries, places)
    requires !IsSummarized(artifacts[n].1)
    ensures AreSummaries(show, artifacts[..n + 1], summaries, places)
  {
    hide IsSummaryAt, IsSummarized;
    SummariesStay(show, artifacts, summaries, places, n);
  }

  lemma {:induction false} SummariesAre(show: Json -> string, artifacts: seq<(string, Json)>)
    returns (places: seq<nat>)
    ensures AreSummaries(show, artifacts, Summaries(show, artifacts), places)
  {
    hide Summarize, IsSummary, IsSummarized;
    if |artifacts| == 0 {
      places := [];
    } else {
      var n := |artifacts| - 1;
      places := SummariesAre(show, artifacts[..n]);
      SummaryIs(show, artifacts[n].0, artifacts[n].1);
      var summary := Summarize(show, artifacts[n].0, artifacts[n].1);
      var before := Summaries(show, artifacts[..n]);
      hide AreSummaries;
      assert artifacts[..n + 1] == artifacts;
      if summary.Some? {
        OneMoreSummary(show, artifacts, before, places, n, summary.value);
        places := places + [n];
      } else {
        assert before + [] == before;
        NoMoreSummary(show, artifacts, before, places, n);
      }
    }
  }
}
