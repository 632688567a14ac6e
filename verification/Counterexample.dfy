/** The bounded failure evidence handed to the coding model. */
module Counterexamples {
  import opened Text

  /** A JSON value; numbers are integers, finite floats, or NaN and the infinities. */
  datatype Json =
    | Null | Bool(b: bool) | Int(n: int) | Float(x: real) | NonFinite | Str(s: string)
    | List(items: seq<Json>) | Object(fields: map<string, Json>)

  const MAX_SAMPLES: nat := 25
  const MAX_SUMMARIES: nat := 100

  function Field(j: Json, name: string): Json {
    if j.Object? && name in j.fields then j.fields[name] else Null
  }

  predicate IsFinite(j: Json) {
    j.Int? || j.Float?
  }

  function Number(j: Json): real
    requires IsFinite(j)
  {
    if j.Int? then j.n as real else j.x
  }

  // ---------------------------------------------------------------- the window

  function Abs(x: real): real {
    if x < 0.0 then -x else x
  }

  /** `i` is the first index whose time is nearest the peak. */
  predicate IsNearest(times: seq<real>, peak: real, i: nat) {
    && i < |times|
    && (forall j | 0 <= j < |times| :: Abs(times[i] - peak) <= Abs(times[j] - peak))
    && (forall j | 0 <= j < i :: Abs(times[i] - peak) < Abs(times[j] - peak))
  }

  /** `min(range(len(times)), key=...)`. */
  function Nearest(times: seq<real>, peak: real): (i: nat)
    requires |times| > 0
    ensures IsNearest(times, peak, i)
  {
    if |times| == 1 then 0
    else
      var i := Nearest(times[..|times| - 1], peak);
      if Abs(times[|times| - 1] - peak) < Abs(times[i] - peak) then |times| - 1 else i
  }

  /** The kept half-open range around the peak, moved back inside the samples. */
  function Window(n: nat, peak: nat): (nat, nat)
    requires peak < n
  {
    var start := if peak < MAX_SAMPLES / 2 then 0 else peak - MAX_SAMPLES / 2;
    var end := if n < start + MAX_SAMPLES then n else start + MAX_SAMPLES;
    (if end < MAX_SAMPLES then 0 else end - MAX_SAMPLES, end)
  }

  lemma WindowHoldsPeak(n: nat, peak: nat)
    requires peak < n
    ensures var (start, end) := Window(n, peak);
      && start <= peak < end <= n
      && end - start == if n < MAX_SAMPLES then n else MAX_SAMPLES
  {
  }

  // ---------------------------------------------------------------- clipping a counterexample

  const SCHEMA := "bactalk.trajectory-counterexample/v1"

  function Times(value: Json): seq<Json> {
    if Field(Field(value, "window"), "test_times").List? then Field(Field(value, "window"), "test_times").items else []
  }

  function Values(value: Json): seq<Json> {
    if Field(Field(value, "window"), "test_values").List? then Field(Field(value, "window"), "test_values").items
        else []
  }

  predicate AllFinite(items: seq<Json>) {
    forall k | 0 <= k < |items| :: IsFinite(items[k])
  }

  /** The checks a counterexample must pass to be shown to the model. */
  predicate IsUsable(value: Json) {
    && Field(value, "schema") == Str(SCHEMA)
    && |Times(value)| == |Values(value)| && |Times(value)| > 0
    && AllFinite(Times(value)) && AllFinite(Values(value))
    && (IsFinite(Field(value, "peak_error_time")) || Field(value, "peak_error_time").NonFinite?)
    && Field(Field(value, "window"), "start_index").Int?
  }

  function Numbers(items: seq<Json>): seq<real>
    requires AllFinite(items)
  {
    seq(|items|, k requires 0 <= k < |items| => Number(items[k]))
  }

  /** The first sample nearest the peak. A peak at NaN or infinity is no nearer to one sample than
      to another, so the first sample is taken. */
  function PeakIndex(value: Json): nat
    requires IsUsable(value)
  {
    var peak := Field(value, "peak_error_time");
    if peak.NonFinite? then 0 else Nearest(Numbers(Times(value)), Number(peak))
  }

  lemma PeakIndexInRange(value: Json)
    requires IsUsable(value)
    ensures PeakIndex(value) < |Times(value)|
  {
  }

  function Range(value: Json): (range: (nat, nat))
    requires IsUsable(value)
    ensures range.0 <= range.1 <= |Times(value)|
  {
    PeakIndexInRange(value);
    WindowHoldsPeak(|Times(value)|, PeakIndex(value));
    Window(|Times(value)|, PeakIndex(value))
  }

  function Floats(items: seq<Json>): seq<Json>
    requires AllFinite(items)
  {
    seq(|items|, k requires 0 <= k < |items| => Float(Number(items[k])))
  }

  function KeptTimes(value: Json): seq<Json>
    requires IsUsable(value)
  {
    Floats(Times(value)[Range(value).0..Range(value).1])
  }

  function KeptValues(value: Json): seq<Json>
    requires IsUsable(value)
  {
    Floats(Values(value)[Range(value).0..Range(value).1])
  }

  function KeptWindow(value: Json): map<string, Json>
    requires IsUsable(value)
  {
    var (start, end) := Range(value);
    var first := Field(Field(value, "window"), "start_index").n;
    map["start_index" := Int(first + start),
        "end_index" := Int(first + end - 1),
        "test_times" := List(KeptTimes(value)),
        "test_values" := List(KeptValues(value))]
  }

  /** The fields passed through as they are. */
  function PassedThrough(): set<string> {
    {"schema", "violation_count", "first_violation_time", "last_violation_time", "peak_error_time", "peak_error",
     "peak_absolute_error", "context_samples"}
  }

  /** The record handed to the model: those fields, the truncation mark, and the window. */
  function Record(value: Json, truncated: bool, window: Json): Json {
    Object((map name | name in PassedThrough() :: Field(value, name))
           + map["window_truncated_for_model" := Bool(truncated), "window" := window])
  }

  /** `bounded_counterexample`. */
  function Bounded(value: Json): (r: Option<Json>)
    ensures r.Some? <==> IsUsable(value)
  {
    if !IsUsable(value) then None
    else Some(Record(value, |Times(value)| > MAX_SAMPLES, Object(KeptWindow(value))))
  }

  lemma MarksAreNotPassedThrough()
    ensures "window_truncated_for_model" !in PassedThrough() && "window" !in PassedThrough()
    ensures "window_truncated_for_model" != "window"
    ensures "schema" in PassedThrough() && "peak_error_time" in PassedThrough()
  {
    assert "window"[0] == 'w' && "window_truncated_for_model"[0] == 'w';
    assert forall name | name in PassedThrough() :: name[0] != 'w';
    assert |"window"| < |"window_truncated_for_model"|;
  }

  lemma RecordFields(value: Json, truncated: bool, window: Json)
    ensures var r := Record(value, truncated, window);
      && (forall name | name in PassedThrough() :: Field(r, name) == Field(value, name))
      && "schema" in PassedThrough() && "peak_error_time" in PassedThrough()
      && Field(r, "window_truncated_for_model") == Bool(truncated)
      && Field(r, "window") == window
  {
    hide PassedThrough;
    MarksAreNotPassedThrough();
  }

  lemma RecordAgain(value: Json, a: bool, v: Json, b: bool, w: Json)
    ensures Record(Record(value, a, v), b, w) == Record(value, b, w)
  {
    hide PassedThrough;
    RecordFields(value, a, v);
    var again := Record(value, a, v);
    assert (map name | name in PassedThrough() :: Field(again, name))
        == (map name | name in PassedThrough() :: Field(value, name));
  }

  lemma NearestIsUnique(times: seq<real>, peak: real, i: nat, j: nat)
    requires IsNearest(times, peak, i) && IsNearest(times, peak, j)
    ensures i == j
  {
    assert Abs(times[i] - peak) <= Abs(times[j] - peak) && Abs(times[j] - peak) <= Abs(times[i] - peak);
  }

  /** The nearest sample of a window that holds it is the same sample. */
  lemma NearestInWindow(times: seq<real>, peak: real, start: nat, end: nat)
    requires |times| > 0 && start <= Nearest(times, peak) < end <= |times|
    ensures Nearest(times[start..end], peak) == Nearest(times, peak) - start
  {
    NearestIsUnique(times[start..end], peak, Nearest(times[start..end], peak), Nearest(times, peak) - start);
  }

  // ---------------------------------------------------------------- what is kept

  /** The kept window is a contiguous run of the samples, of length min(n, 25), holding the sample
      nearest the peak; its indices count its samples and place each where it stood; and it is
      marked truncated iff samples were dropped. */
  lemma BoundedKeepsThePeak(value: Json)
    requires IsUsable(value)
    ensures var kept := Bounded(value).value;
      var (start, end) := Range(value);
      var first := Field(Field(value, "window"), "start_index").n;
      && start <= PeakIndex(value) < end <= |Times(value)|
      && Times(kept) == Floats(Times(value))[start..end]
      && Values(kept) == Floats(Values(value))[start..end]
      && |Times(kept)| == (if |Times(value)| < MAX_SAMPLES then |Times(value)| else MAX_SAMPLES)
      && Field(Field(kept, "window"), "start_index") == Int(first + start)
      && Field(Field(kept, "window"), "end_index") == Int(first + start + |Times(kept)| - 1)
      && (Field(kept, "window_truncated_for_model") == Bool(true) <==> |Times(kept)| < |Times(value)|)
  {
    hide PeakIndex, Nearest, Record;
    PeakIndexInRange(value);
    WindowHoldsPeak(|Times(value)|, PeakIndex(value));
    var (start, end) := Range(value);
    assert Floats(Times(value)[start..end]) == Floats(Times(value))[start..end];
    assert Floats(Values(value)[start..end]) == Floats(Values(value))[start..end];
    BoundedFields(value);
  }

  lemma BoundedFields(value: Json)
    requires IsUsable(value)
    ensures var kept := Bounded(value).value;
      && Field(kept, "window") == Object(KeptWindow(value))
      && Field(kept, "schema") == Str(SCHEMA)
      && Field(kept, "peak_error_time") == Field(value, "peak_error_time")
      && Field(kept, "window_truncated_for_model") == Bool(|Times(value)| > MAX_SAMPLES)
      && Times(kept) == KeptTimes(value) && Values(kept) == KeptValues(value)
  {
    hide PeakIndex, Record, PassedThrough, KeptTimes, KeptValues;
    RecordFields(value, |Times(value)| > MAX_SAMPLES, Object(KeptWindow(value)));
  }

  lemma BoundedIsUsable(value: Json)
    requires IsUsable(value)
    ensures IsUsable(Bounded(value).value)
  {
    hide PeakIndex, Record;
    BoundedFields(value);
    BoundedKeepsThePeak(value);
  }

  lemma BoundedPeak(value: Json)
    requires IsUsable(value) && IsUsable(Bounded(value).value)
    ensures PeakIndex(value) < |Times(value)|
    ensures Range(Bounded(value).value) == (0, |Times(Bounded(value).value)|)
  {
    hide PeakIndex, Record, Nearest;
    var kept := Bounded(value).value;
    BoundedKeepsThePeak(value);
    PeakIndexInRange(kept);
    WindowHoldsPeak(|Times(kept)|, PeakIndex(kept));
  }

  /** Clipping what was clipped keeps the same window. */
  lemma ReclippingKeepsWindow(value: Json)
    requires IsUsable(value)
    ensures IsUsable(Bounded(value).value)
    ensures KeptWindow(Bounded(value).value) == KeptWindow(value)
  {
    hide PeakIndex, Bounded, Nearest, Floats;
    var kept := Bounded(value).value;
    BoundedIsUsable(value);
    BoundedPeak(value);
    BoundedFields(value);
    BoundedKeepsThePeak(value);
    var (start, end) := Range(value);
    FloatsAgain(Times(value)[start..end]);
    FloatsAgain(Values(value)[start..end]);
    assert Times(kept)[0..|Times(kept)|] == Times(kept) && Values(kept)[0..|Times(kept)|] == Values(kept);
  }

  lemma FloatsAgain(items: seq<Json>)
    requires AllFinite(items)
    ensures AllFinite(Floats(items)) && Floats(Floats(items)) == Floats(items)
  {
  }

  /** ... but not the whole record: the truncation mark of a clipped counterexample is lost, so
      clipping again changes nothing iff nothing was dropped the first time. */
  lemma ReclippingIsIdempotentIff(value: Json)
    requires IsUsable(value)
    ensures IsUsable(Bounded(value).value)
    ensures Bounded(Bounded(value).value) == Bounded(value) <==> |Times(value)| <= MAX_SAMPLES
  {
    hide PeakIndex, KeptWindow, Record, IsUsable, Times, Range;
    var kept := Bounded(value).value;
    ReclippingKeepsWindow(value);
    BoundedKeepsThePeak(value);
    var window := Object(KeptWindow(value));
    RecordAgain(value, |Times(value)| > MAX_SAMPLES, window, false, window);
    RecordFields(value, |Times(value)| > MAX_SAMPLES, window);
    RecordFields(value, false, window);
  }

  /** The sample the peak falls on is the same one before and after. */
  lemma PeakIsKept(value: Json)
    requires IsUsable(value)
    ensures IsUsable(Bounded(value).value)
    ensures PeakIndex(Bounded(value).value) == PeakIndex(value) - Range(value).0
  {
    hide KeptWindow, Record, Nearest, IsNearest;
    var kept := Bounded(value).value;
    BoundedIsUsable(value);
    BoundedFields(value);
    BoundedKeepsThePeak(value);
    var (start, end) := Range(value);
    if !Field(value, "peak_error_time").NonFinite? {
      assert Numbers(Times(kept)) == Numbers(Times(value))[start..end];
      NearestInWindow(Numbers(Times(value)), Number(Field(value, "peak_error_time")), start, end);
    }
  }

  // ---------------------------------------------------------------- the summary

  datatype Summary = Summary(
    lane: string, caseId: string, oracleId: string, signalKind: string, signal: string,
    tolerance: Json, maxError: Json, counterexample: Json)

  function Take(s: string, n: nat): string {
    if |s| <= n then s else s[..n]
  }

  /** `str(oracle.get(name, "unknown"))`, cut. `show` is `str`, which leaves text as it is. */
  function OracleText(show: Json -> string, oracle: Json, name: string, n: nat): string
    requires oracle.Object?
  {
    Take(if name in oracle.fields then show(oracle.fields[name]) else "unknown", n)
  }

  /** One artifact's summary, when it is an oracle counterexample the model may be shown. */
  function Summarize(show: Json -> string, context: string, artifact: Json): Option<Summary> {
    var oracle := Field(artifact, "oracle");
    var counterexample := Bounded(Field(artifact, "counterexample"));
    if Field(artifact, "schema") != Str("bactalk.oracle-counterexample/v1") || !oracle.Object? || counterexample.None?
    then None
    else
      var (lane, rest) := Partition(context, '/');
      var caseId := Partition(rest, '/').0;
      Some(Summary(
        Take(lane, 40), Take(if caseId == "" then "single-run" else caseId, 120),
        OracleText(show, oracle, "id", 120), OracleText(show, oracle, "signal_kind", 40),
        OracleText(show, oracle, "signal", 240),
        Field(oracle, "absolute_value_tolerance"), Field(counterexample.value, "peak_absolute_error"),
        counterexample.value))
  }

  /** Every summary, in the order of the artifacts. */
  function Summaries(show: Json -> string, artifacts: seq<(string, Json)>): seq<Summary> {
    if |artifacts| == 0 then []
    else
      var (context, artifact) := artifacts[|artifacts| - 1];
      var summary := Summarize(show, context, artifact);
      Summaries(show, artifacts[..|artifacts| - 1]) + if summary.Some? then [summary.value] else []
  }

  lemma {:induction false} SummariesGrow(show: Json -> string, artifacts: seq<(string, Json)>, n: nat)
    requires n <= |artifacts|
    ensures Summaries(show, artifacts[..n]) <= Summaries(show, artifacts)
    decreases |artifacts|
  {
    hide Summarize;
    if n == |artifacts| {
      assert artifacts[..n] == artifacts;
    } else {
      var init := artifacts[..|artifacts| - 1];
      assert init[..n] == artifacts[..n];
      SummariesGrow(show, init, n);
    }
  }

  /** The first hundred summaries in context order. */
  method SummarizeVerificationFailures(show: Json -> string, artifacts: map<string, Json>)
    returns (summaries: seq<Summary>)
    ensures summaries <= Summaries(show, SortedItems(artifacts))
    ensures |summaries| == if |Summaries(show, SortedItems(artifacts))| < MAX_SUMMARIES
                           then |Summaries(show, SortedItems(artifacts))| else MAX_SUMMARIES
  {
    hide Summarize;
    var items := SortedItems(artifacts);
    summaries := [];
    for k := 0 to |items|
      invariant summaries == Summaries(show, items[..k]) && |summaries| < MAX_SUMMARIES
    {
      assert items[..k + 1][..k] == items[..k];
      var (context, artifact) := items[k];
      var summary := Summarize(show, context, artifact);
      if summary.Some? {
        summaries := summaries + [summary.value];
        if |summaries| >= MAX_SUMMARIES {
          SummariesGrow(show, items, k + 1);
          return;
        }
      }
    }
    assert items[..|items|] == items;
  }
}
