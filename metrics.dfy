/** `transformMetrics`, `chartMax` and `formatThresholdsForChart`: assembling, for every
    metric result that has a spec, the record the analysis view charts and tabulates. */
module Metrics {
  import opened Wrappers
  import opened JsText
  import opened Numbers
  import opened JsonValues
  import opened Interpolation
  import opened Providers
  import opened Conditions
  import opened MeasurementValues
  import opened Measurements
  import opened StatusLabels

  /** `formatThresholdsForChart`: every threshold rounded to two decimals. */
  function FormatThresholds(thresholds: seq<real>): (r: seq<real>)
    ensures |r| == |thresholds|
    ensures forall i :: 0 <= i < |r| ==> TwoDecimal(r[i]) && thresholds[i] - 0.005 < r[i] <= thresholds[i] + 0.005
    ensures forall i :: 0 <= i < |r| ==> r[i] == Round2(thresholds[i])
  {
    seq(|thresholds|, i requires 0 <= i < |thresholds| => Round2(thresholds[i]))
  }

  /** Formatting formatted thresholds changes nothing. */
  lemma FormatThresholdsIdempotent(thresholds: seq<real>)
    ensures FormatThresholds(FormatThresholds(thresholds)) == FormatThresholds(thresholds)
  {
    var once := FormatThresholds(thresholds);
    forall i | 0 <= i < |once|
      ensures Round2(once[i]) == once[i]
    {
      Round2Fixes(once[i]);
    }
  }

  /** Formatting keeps the thresholds' order. */
  lemma FormatThresholdsMonotone(thresholds: seq<real>, i: nat, j: nat)
    requires i < |thresholds| && j < |thresholds| && thresholds[i] <= thresholds[j]
    ensures FormatThresholds(thresholds)[i] <= FormatThresholds(thresholds)[j]
  {
    Round2Monotone(thresholds[i], thresholds[j]);
  }

  /** `Math.max(...s)` of a non-empty list. */
  function SeqMax(s: seq<real>): (m: real)
    requires |s| > 0
    ensures m in s
    ensures forall i :: 0 <= i < |s| ==> s[i] <= m
  {
    if |s| == 1 then s[0]
    else
      var rest := SeqMax(s[1..]);
      if s[0] >= rest then s[0] else rest
  }

  /** The greatest of the value maximum and the thresholds of the lists that are present
      and non-empty (a missing list counts as negative infinity). */
  function Highest(valueMax: real, fail: Option<seq<real>>, success: Option<seq<real>>): (m: real)
    ensures m >= valueMax
    ensures fail.Some? ==> forall i :: 0 <= i < |fail.value| ==> fail.value[i] <= m
    ensures success.Some? ==> forall i :: 0 <= i < |success.value| ==> success.value[i] <= m
    ensures m == valueMax || (fail.Some? && m in fail.value) || (success.Some? && m in success.value)
  {
    var a := if fail.Some? && |fail.value| > 0 && SeqMax(fail.value) > valueMax then SeqMax(fail.value) else valueMax;
    if success.Some? && |success.value| > 0 && SeqMax(success.value) > a then SeqMax(success.value) else a
  }

  /** `chartMax`: 120% of the highest of the measurements' maximum (a missing one counts
      as 0) and the thresholds, rounded to two decimals. */
  function ChartMax(valueMax: Option<real>, fail: Option<seq<real>>, success: Option<seq<real>>): (r: real)
    ensures TwoDecimal(r)
    ensures var top := Highest(valueMax.GetOr(0.0), fail, success);
            top * 1.2 - 0.005 < r <= top * 1.2 + 0.005
  {
    Round2(Highest(valueMax.GetOr(0.0), fail, success) * 1.2)
  }

  predicate AllTwoDecimal(s: Option<seq<real>>) {
    s.Some? ==> forall i :: 0 <= i < |s.value| ==> TwoDecimal(s.value[i])
  }

  /** The chart's top is never below the measurements' maximum nor below any threshold,
      when all of them are rounded to two decimals and the maximum is not negative. */
  lemma ChartMaxCovers(valueMax: Option<real>, fail: Option<seq<real>>, success: Option<seq<real>>)
    requires valueMax.Some? ==> valueMax.value >= 0.0 && TwoDecimal(valueMax.value)
    requires AllTwoDecimal(fail) && AllTwoDecimal(success)
    ensures ChartMax(valueMax, fail, success) >= valueMax.GetOr(0.0)
    ensures fail.Some? ==> forall i :: 0 <= i < |fail.value| ==> fail.value[i] <= ChartMax(valueMax, fail, success)
    ensures success.Some? ==> forall i :: 0 <= i < |success.value| ==> success.value[i] <= ChartMax(valueMax, fail, success)
  {
    var top := Highest(valueMax.GetOr(0.0), fail, success);
    assert TwoDecimal(0.0) by {
      assert (0.0 * 100.0).Floor == 0;
    }
    HighestTwoDecimal(valueMax.GetOr(0.0), fail, success);
    assert ChartMax(valueMax, fail, success) >= top by {
      Headroom(top);
    }
  }

  lemma HighestTwoDecimal(valueMax: real, fail: Option<seq<real>>, success: Option<seq<real>>)
    requires TwoDecimal(valueMax) && AllTwoDecimal(fail) && AllTwoDecimal(success)
    ensures TwoDecimal(Highest(valueMax, fail, success))
  {
    var top := Highest(valueMax, fail, success);
    if top != valueMax {
      if fail.Some? && top in fail.value {
        var i :| 0 <= i < |fail.value| && fail.value[i] == top;
      } else {
        var i :| 0 <= i < |success.value| && success.value[i] == top;
      }
    }
  }

  /** Every threshold of `a` is at most some threshold of `b`. A missing or empty `a`
      is dominated by anything, and so is a list of the same length as `b` that is
      element by element at most `b`. */
  predicate Dominated(a: Option<seq<real>>, b: Option<seq<real>>) {
    a.Some? ==> forall i :: 0 <= i < |a.value| ==> b.Some? && Below(a.value[i], b.value)
  }

  /** `x` is at most some element of `s`. */
  predicate Below(x: real, s: seq<real>) {
    exists j :: 0 <= j < |s| && x <= s[j]
  }

  /** Thresholds raised one by one dominate the originals. */
  lemma PointwiseDominated(a: seq<real>, b: seq<real>)
    requires |a| == |b| && forall i :: 0 <= i < |a| ==> a[i] <= b[i]
    ensures Dominated(Some(a), Some(b))
    ensures Dominated(None, Some(b))
  {
    forall i | 0 <= i < |a|
      ensures Below(a[i], b)
    {
      assert a[i] <= b[i];
    }
  }


  lemma HighestMonotone(v: real, w: real, f1: Option<seq<real>>, f2: Option<seq<real>>, s1: Option<seq<real>>, s2: Option<seq<real>>)
    requires v <= w && Dominated(f1, f2) && Dominated(s1, s2)
    ensures Highest(v, f1, s1) <= Highest(w, f2, s2)
  {
    var m := Highest(v, f1, s1);
    if m != v {
      if f1.Some? && m in f1.value {
        var i :| 0 <= i < |f1.value| && f1.value[i] == m;
        assert Below(f1.value[i], f2.value);
        var j :| 0 <= j < |f2.value| && f1.value[i] <= f2.value[j];
      } else {
        var i :| 0 <= i < |s1.value| && s1.value[i] == m;
        assert Below(s1.value[i], s2.value);
        var j :| 0 <= j < |s2.value| && s1.value[i] <= s2.value[j];
      }
    }
  }

  /** `chartMax` is monotone in each of its inputs: a higher measurement maximum, or
      higher thresholds on either side, never lower the chart's top. */
  lemma ChartMaxMonotone(v: Option<real>, w: Option<real>, f1: Option<seq<real>>, f2: Option<seq<real>>, s1: Option<seq<real>>, s2: Option<seq<real>>)
    requires v.GetOr(0.0) <= w.GetOr(0.0) && Dominated(f1, f2) && Dominated(s1, s2)
    ensures ChartMax(v, f1, s1) <= ChartMax(w, f2, s2)
  {
    HighestMonotone(v.GetOr(0.0), w.GetOr(0.0), f1, f2, s1, s2);
    Round2Monotone(Highest(v.GetOr(0.0), f1, s1) * 1.2, Highest(w.GetOr(0.0), f2, s2) * 1.2);
  }

  /** `[...new Set(keys)]`: the keys without repeats, each where it first occurs. */
  function Dedup(s: seq<string>): (r: seq<string>)
    ensures forall x :: x in r <==> x in s
    ensures forall i, j :: 0 <= i < j < |r| ==> r[i] != r[j]
  {
    if s == [] then []
    else
      var d := Dedup(s[..|s| - 1]);
      if s[|s| - 1] in d then d else d + [s[|s| - 1]]
  }

  /** Keys that are already distinct come back unchanged. */
  lemma {:induction false} DedupDistinct(s: seq<string>)
    requires forall i, j :: 0 <= i < j < |s| ==> s[i] != s[j]
    ensures Dedup(s) == s
  {
    if s != [] {
      var init := s[..|s| - 1];
      DedupDistinct(init);
      assert s[|s| - 1] !in init;
      assert init + [s[|s| - 1]] == s;
    }
  }

  /** The keys of the first list come first, in their own de-duplicated order. */
  lemma {:induction false} DedupPrefix(a: seq<string>, b: seq<string>)
    ensures Dedup(a) <= Dedup(a + b)
  {
    if b == [] {
      assert a + b == a;
    } else {
      var init := b[..|b| - 1];
      DedupPrefix(a, init);
      assert (a + b)[..|a + b| - 1] == a + init;
      assert (a + b)[|a + b| - 1] == b[|b| - 1];
    }
  }

  /** A metric definition of the spec; the fields the transform reads. */
  datatype MetricSpec = MetricSpec(
    name: string,
    provider: Option<Provider>,
    failureCondition: Option<string>,
    successCondition: Option<string>)

  datatype AnalysisSpec = AnalysisSpec(args: Option<seq<Arg>>, metrics: Option<seq<MetricSpec>>)

  /** A metric's result in the status: its phase and counts and its measurements. */
  datatype MetricResult = MetricResult(
    name: Option<string>,
    phase: Option<Phase>,
    failed: Option<int>,
    error: Option<int>,
    inconclusive: Option<int>,
    measurements: Option<seq<Measurement>>)

  datatype RunStatus = RunStatus(metricResults: Option<seq<MetricResult>>)

  datatype SpecAndStatus = SpecAndStatus(spec: Option<AnalysisSpec>, status: Option<RunStatus>)

  /** The spec part of a transformed metric: the definition plus what is derived from it. */
  datatype TransformedSpec = TransformedSpec(
    definition: MetricSpec,
    queries: Option<seq<Option<string>>>,
    failConditionLabel: Option<string>,
    failThresholds: Option<seq<real>>,
    successConditionLabel: Option<string>,
    successThresholds: Option<seq<real>>,
    conditionKeys: seq<string>)

  /** The status part of a transformed metric: the result plus labels and chart data. */
  datatype TransformedStatus = TransformedStatus(
    result: MetricResult,
    statusLabel: string,
    substatus: Option<FunctionalStatus>,
    transformedMeasurements: seq<TransformedMeasurement>,
    chartable: bool,
    chartMin: real,
    chartMax: real)

  datatype TransformedMetric = TransformedMetric(name: string, spec: TransformedSpec, status: TransformedStatus)

  /** The metric's name, or `Unknown metric <index>` when the result has none. */
  function DisplayName(result: MetricResult, idx: nat): string {
    result.name.GetOr("Unknown metric " + NatText(idx))
  }

  /** `metrics.find(m => m.name === name)`: the first definition with that name. */
  function FindSpec(metrics: seq<MetricSpec>, name: string): (r: Option<MetricSpec>)
    ensures r.Some? ==> exists i :: 0 <= i < |metrics| && metrics[i] == r.value && r.value.name == name &&
                                    forall j :: 0 <= j < i ==> metrics[j].name != name
    ensures r.None? <==> forall i :: 0 <= i < |metrics| ==> metrics[i].name != name
  {
    if metrics == [] then None
    else if metrics[0].name == name then Some(metrics[0])
    else FindSpec(metrics[1..], name)
  }

  /** Thresholds for the chart: the rounded list, or none when it is empty. */
  function ChartThresholds(thresholds: seq<real>): Option<seq<real>> {
    if |thresholds| > 0 then Some(FormatThresholds(thresholds)) else None
  }

  /** The keys a metric's measurements are read by: those of both conditions, each once. */
  function MetricKeys(args: seq<Arg>, spec: MetricSpec): seq<string> {
    Dedup(ConditionInfoOf(spec.failureCondition, args, spec.provider).conditionKeys
          + ConditionInfoOf(spec.successCondition, args, spec.provider).conditionKeys)
  }

  /** The body of the `forEach` for a result whose definition was found. */
  function TransformMetric(host: Host, args: seq<Arg>, spec: MetricSpec, result: MetricResult, name: string): (r: Result<TransformedMetric, DecodeError>)
    ensures result.measurements.None? || result.measurements == Some([]) ==> r.Ok?
    ensures r.Ok? ==> r.value.name == name && r.value.spec.definition == spec && r.value.status.result == result
    ensures r.Ok? ==> |r.value.status.transformedMeasurements| == |result.measurements.GetOr([])|
    ensures r.Ok? ==> TwoDecimal(r.value.status.chartMax)
  {
    var fail := ConditionInfoOf(spec.failureCondition, args, spec.provider);
    var success := ConditionInfoOf(spec.successCondition, args, spec.provider);
    var failThresholds := ChartThresholds(fail.thresholds);
    var successThresholds := ChartThresholds(success.thresholds);
    var keys := MetricKeys(args, spec);
    var info :- TransformMeasurements(host, keys, result.measurements);
    var phase := result.phase.GetOr(Unknown);
    var failures, errors, inconclusives := result.failed.GetOr(0), result.error.GetOr(0), result.inconclusive.GetOr(0);
    Ok(TransformedMetric(
      name,
      TransformedSpec(spec, MetricQueries(host, spec.provider, args), fail.labelText, failThresholds,
                      success.labelText, successThresholds, keys),
      TransformedStatus(result, MetricStatusLabel(phase, failures, errors, inconclusives),
                        MetricSubstatus(phase, failures, errors, inconclusives),
                        info.measurements, info.chartable, info.min, ChartMax(info.max, failThresholds, successThresholds))))
  }

  /** What one result turns into: its display name, and no outcome when no definition
      has that name, otherwise the outcome of transforming it. */
  datatype Entry = Entry(name: string, outcome: Option<Result<TransformedMetric, DecodeError>>)

  function EntryOf(host: Host, spec: AnalysisSpec, result: MetricResult, idx: nat): Entry {
    var name := DisplayName(result, idx);
    match FindSpec(spec.metrics.GetOr([]), name)
    case None => Entry(name, None)
    case Some(definition) => Entry(name, Some(TransformMetric(host, spec.args.GetOr([]), definition, result, name)))
  }

  /** The entry of every result, in order. */
  function Entries(host: Host, spec: AnalysisSpec, results: seq<MetricResult>): (es: seq<Entry>)
    ensures |es| == |results|
  {
    if results == [] then []
    else Entries(host, spec, results[..|results| - 1]) + [EntryOf(host, spec, results[|results| - 1], |results| - 1)]
  }

  lemma {:induction false} EntriesAt(host: Host, spec: AnalysisSpec, results: seq<MetricResult>, i: nat)
    requires i < |results|
    ensures Entries(host, spec, results)[i] == EntryOf(host, spec, results[i], i)
  {
    var init := results[..|results| - 1];
    if i < |init| {
      EntriesAt(host, spec, init, i);
      assert init[i] == results[i];
    }
  }

  /** One turn of the `forEach`: an entry with a transformed metric is stored under its
      name, replacing any earlier one; one that throws aborts the whole; one without an
      outcome is skipped. */
  function Apply(acc: Result<map<string, TransformedMetric>, DecodeError>, e: Entry): Result<map<string, TransformedMetric>, DecodeError> {
    if acc.Err? then acc
    else
      match e.outcome
      case None => acc
      case Some(Err(error)) => Err(error)
      case Some(Ok(metric)) => Ok(acc.value[e.name := metric])
  }

  /** The map after the loop has gone through `es`. */
  function Replay(es: seq<Entry>): Result<map<string, TransformedMetric>, DecodeError> {
    if es == [] then Ok(map[]) else Apply(Replay(es[..|es| - 1]), es[|es| - 1])
  }

  lemma ReplayStep(es: seq<Entry>, n: nat)
    requires n < |es|
    ensures Replay(es[..n + 1]) == Apply(Replay(es[..n]), es[n])
  {
    assert es[..n + 1][..n] == es[..n];
  }

  /** Entry `i` throws. */
  predicate ThrowsAt(es: seq<Entry>, i: int) {
    0 <= i < |es| && es[i].outcome.Some? && es[i].outcome.value.Err?
  }

  /** The loop fails exactly when an entry throws, and then with the first entry's error. */
  lemma {:induction false} ReplayErrors(es: seq<Entry>)
    ensures Replay(es).Err? <==> exists i :: ThrowsAt(es, i)
    ensures Replay(es).Err? ==>
              exists i :: ThrowsAt(es, i) && es[i].outcome.value.error == Replay(es).error && forall j :: 0 <= j < i ==> !ThrowsAt(es, j)
  {
    if es != [] {
      var init := es[..|es| - 1];
      var last := |es| - 1;
      ReplayErrors(init);
      assert forall i :: ThrowsAt(init, i) <==> ThrowsAt(es, i) && i < last;
      if Replay(init).Err? {
        var i :| ThrowsAt(init, i) && init[i].outcome.value.error == Replay(init).error && forall j :: 0 <= j < i ==> !ThrowsAt(init, j);
        assert ThrowsAt(es, i) && forall j :: 0 <= j < i ==> !ThrowsAt(es, j);
      } else if ThrowsAt(es, last) {
        assert es[last].outcome.value.error == Replay(es).error;
      }
    }
  }

  /** Once an error has been met, it is the outcome of the whole. */
  lemma {:induction false} ErrorPersists(es: seq<Entry>, n: nat)
    requires n <= |es| && Replay(es[..n]).Err?
    ensures Replay(es) == Replay(es[..n])
  {
    if n < |es| {
      var init := es[..|es| - 1];
      assert init[..n] == es[..n];
      ErrorPersists(init, n);
    } else {
      assert es[..n] == es;
    }
  }

  /** The names in the output are exactly those of the entries with a transformed metric. */
  lemma {:induction false} ReplayNames(es: seq<Entry>)
    requires Replay(es).Ok?
    ensures forall name :: name in Replay(es).value <==> exists i :: 0 <= i < |es| && es[i].outcome.Some? && es[i].name == name
  {
    if es != [] {
      var init := es[..|es| - 1];
      var last := |es| - 1;
      assert Replay(init).Ok?;
      ReplayNames(init);
      forall name | name in Replay(es).value
        ensures exists i :: 0 <= i < |es| && es[i].outcome.Some? && es[i].name == name
      {
        if name in Replay(init).value {
          var i :| 0 <= i < |init| && init[i].outcome.Some? && init[i].name == name;
          assert es[i] == init[i];
        } else {
          assert es[last].outcome.Some? && es[last].name == name;
        }
      }
      forall name, i | 0 <= i < |es| && es[i].outcome.Some? && es[i].name == name
        ensures name in Replay(es).value
      {
        if i < last {
          assert init[i] == es[i];
        }
      }
    }
  }

  /** An entry's metric is the one kept under its name when no later entry has that name. */
  lemma {:induction false} ReplayLastWins(es: seq<Entry>, i: nat)
    requires i < |es| && Replay(es).Ok? && es[i].outcome.Some?
    requires forall j :: i < j < |es| ==> es[j].name != es[i].name
    ensures es[i].name in Replay(es).value && Ok(Replay(es).value[es[i].name]) == es[i].outcome.value
  {
    var init := es[..|es| - 1];
    assert Replay(init).Ok?;
    if i < |es| - 1 {
      assert init[i] == es[i];
      ReplayLastWins(init, i);
    }
  }

  /** The metrics of the results, in the order of the `forEach`. */
  function MetricsOf(host: Host, spec: AnalysisSpec, results: seq<MetricResult>): Result<map<string, TransformedMetric>, DecodeError> {
    Replay(Entries(host, spec, results))
  }

  /** `transformMetrics`: nothing without both a spec and a status. */
  function TransformMetricsOf(host: Host, sas: SpecAndStatus): (r: Result<map<string, TransformedMetric>, DecodeError>)
    ensures sas.spec.None? || sas.status.None? ==> r == Ok(map[])
  {
    if sas.spec.None? || sas.status.None? then Ok(map[])
    else MetricsOf(host, sas.spec.value, sas.status.value.metricResults.GetOr([]))
  }

  /** The `forEach` callback for a matched result, its conditions read by `conditionDetails`. */
  method TransformOne(host: Host, args: seq<Arg>, spec: MetricSpec, result: MetricResult, name: string) returns (r: Result<TransformedMetric, DecodeError>)
    ensures r == TransformMetric(host, args, spec, result, name)
  {
    var fail := ConditionDetails(spec.failureCondition, args, spec.provider);
    var success := ConditionDetails(spec.successCondition, args, spec.provider);
    var failThresholds := if |fail.thresholds| > 0 then Some(FormatThresholds(fail.thresholds)) else None;
    var successThresholds := if |success.thresholds| > 0 then Some(FormatThresholds(success.thresholds)) else None;
    var keys := Dedup(fail.conditionKeys + success.conditionKeys);
    var info := TransformMeasurements(host, keys, result.measurements);
    if info.Err? {
      return Err(info.error);
    }
    var phase := result.phase.GetOr(Unknown);
    var failures, errors, inconclusives := result.failed.GetOr(0), result.error.GetOr(0), result.inconclusive.GetOr(0);
    r := Ok(TransformedMetric(
      name,
      TransformedSpec(spec, MetricQueries(host, spec.provider, args), fail.labelText, failThresholds,
                      success.labelText, successThresholds, keys),
      TransformedStatus(result, MetricStatusLabel(phase, failures, errors, inconclusives),
                        MetricSubstatus(phase, failures, errors, inconclusives),
                        info.value.measurements, info.value.chartable, info.value.min,
                        ChartMax(info.value.max, failThresholds, successThresholds))));
  }

  /** The start of the `forEach` callback: the display name, the definition lookup and,
      when one is found, the transformation. */
  method ResultEntry(host: Host, spec: AnalysisSpec, results: seq<MetricResult>, idx: nat) returns (e: Entry)
    requires idx < |results|
    ensures e == Entries(host, spec, results)[idx]
  {
    EntriesAt(host, spec, results, idx);
    var result := results[idx];
    var name := DisplayName(result, idx);
    var found := FindSpec(spec.metrics.GetOr([]), name);
    if found.None? {
      return Entry(name, None);
    }
    var metric := TransformOne(host, spec.args.GetOr([]), found.value, result, name);
    return Entry(name, Some(metric));
  }

  /** `transformMetrics` as the source runs it: a loop over the results filling a map. */
  method TransformMetrics(host: Host, sas: SpecAndStatus) returns (r: Result<map<string, TransformedMetric>, DecodeError>)
    ensures r == TransformMetricsOf(host, sas)
  {
    if sas.spec.None? || sas.status.None? {
      return Ok(map[]);
    }
    var spec := sas.spec.value;
    var results := sas.status.value.metricResults.GetOr([]);
    ghost var es := Entries(host, spec, results);
    var transformed: map<string, TransformedMetric> := map[];
    var idx := 0;
    while idx < |results|
      invariant 0 <= idx <= |results|
      invariant Replay(es[..idx]) == Ok(transformed)
    {
      ReplayStep(es, idx);
      var e := ResultEntry(host, spec, results, idx);
      if e.outcome.Some? {
        if e.outcome.value.Err? {
          ErrorPersists(es, idx + 1);
          return Err(e.outcome.value.error);
        }
        transformed := transformed[e.name := e.outcome.value.value];
      }
      idx := idx + 1;
    }
    assert es[..idx] == es;
    return Ok(transformed);
  }

  /** Result `i` has a definition under its display name. */
  predicate Matched(spec: AnalysisSpec, results: seq<MetricResult>, i: int) {
    0 <= i < |results| && FindSpec(spec.metrics.GetOr([]), DisplayName(results[i], i)).Some?
  }

  /** The transformation of result `i`, which has a definition. */
  function TransformedAt(host: Host, spec: AnalysisSpec, results: seq<MetricResult>, i: int): Result<TransformedMetric, DecodeError>
    requires Matched(spec, results, i)
  {
    var name := DisplayName(results[i], i);
    TransformMetric(host, spec.args.GetOr([]), FindSpec(spec.metrics.GetOr([]), name).value, results[i], name)
  }

  lemma EntryAt(host: Host, spec: AnalysisSpec, results: seq<MetricResult>, i: int)
    requires 0 <= i < |results|
    ensures var e := Entries(host, spec, results)[i];
            && e.name == DisplayName(results[i], i)
            && (e.outcome.Some? <==> Matched(spec, results, i))
            && (Matched(spec, results, i) ==> e.outcome.value == TransformedAt(host, spec, results, i))
  {
    EntriesAt(host, spec, results, i);
  }

  /** The output holds exactly the display names of the results that have a definition. */
  lemma MetricNames(host: Host, spec: AnalysisSpec, results: seq<MetricResult>)
    requires MetricsOf(host, spec, results).Ok?
    ensures forall name :: name in MetricsOf(host, spec, results).value <==>
              exists i :: Matched(spec, results, i) && DisplayName(results[i], i) == name
  {
    var es := Entries(host, spec, results);
    ReplayNames(es);
    forall i | 0 <= i < |results| {
      EntryAt(host, spec, results, i);
    }
  }

  /** Entry `i` throws exactly when result `i` has a definition and its transformation throws. */
  lemma ThrowsAtResult(host: Host, spec: AnalysisSpec, results: seq<MetricResult>, i: int)
    requires 0 <= i < |results|
    ensures ThrowsAt(Entries(host, spec, results), i) <==> Matched(spec, results, i) && TransformedAt(host, spec, results, i).Err?
    ensures ThrowsAt(Entries(host, spec, results), i) ==>
              Entries(host, spec, results)[i].outcome.value.error == TransformedAt(host, spec, results, i).error
  {
    EntryAt(host, spec, results, i);
  }

  /** The whole throws exactly when a matched result's transformation throws. */
  lemma MetricErrors(host: Host, spec: AnalysisSpec, results: seq<MetricResult>)
    ensures MetricsOf(host, spec, results).Err? <==>
              exists i :: Matched(spec, results, i) && TransformedAt(host, spec, results, i).Err?
  {
    var es := Entries(host, spec, results);
    ReplayErrors(es);
    if MetricsOf(host, spec, results).Err? {
      var i :| ThrowsAt(es, i);
      ThrowsAtResult(host, spec, results, i);
    } else {
      forall i | Matched(spec, results, i)
        ensures TransformedAt(host, spec, results, i).Ok?
      {
        ThrowsAtResult(host, spec, results, i);
      }
    }
  }

  /** When the whole throws, it is with the error of the first matched result whose
      transformation throws. */
  lemma FirstErrorReported(host: Host, spec: AnalysisSpec, results: seq<MetricResult>)
    requires MetricsOf(host, spec, results).Err?
    ensures exists i :: Matched(spec, results, i) && TransformedAt(host, spec, results, i).Err?
              && TransformedAt(host, spec, results, i).error == MetricsOf(host, spec, results).error
              && forall j :: 0 <= j < i && Matched(spec, results, j) ==> TransformedAt(host, spec, results, j).Ok?
  {
    var es := Entries(host, spec, results);
    ReplayErrors(es);
    var i :| ThrowsAt(es, i) && es[i].outcome.value.error == Replay(es).error && forall j :: 0 <= j < i ==> !ThrowsAt(es, j);
    ThrowsAtResult(host, spec, results, i);
    forall j | 0 <= j < i && Matched(spec, results, j)
      ensures TransformedAt(host, spec, results, j).Ok?
    {
      ThrowsAtResult(host, spec, results, j);
    }
  }

  /** When several results share a display name, the last of them is the one kept. */
  lemma LastResultWins(host: Host, spec: AnalysisSpec, results: seq<MetricResult>, i: nat)
    requires MetricsOf(host, spec, results).Ok?
    requires Matched(spec, results, i)
    requires forall j :: i < j < |results| ==> DisplayName(results[j], j) != DisplayName(results[i], i)
    ensures var name := DisplayName(results[i], i);
            && name in MetricsOf(host, spec, results).value
            && Ok(MetricsOf(host, spec, results).value[name]) == TransformedAt(host, spec, results, i)
  {
    var es := Entries(host, spec, results);
    forall j | i <= j < |results|
      ensures es[j].name == DisplayName(results[j], j)
    {
      EntryAt(host, spec, results, j);
    }
    EntryAt(host, spec, results, i);
    ReplayLastWins(es, i);
  }

  /** What a transformed metric shows of its conditions: thresholds only when the
      condition had any, each rounded to two decimals in its place; keys from both
      conditions, each once, the failure condition's first. */
  lemma MetricConditions(host: Host, args: seq<Arg>, spec: MetricSpec, result: MetricResult, name: string)
    requires TransformMetric(host, args, spec, result, name).Ok?
    ensures var fail := ConditionInfoOf(spec.failureCondition, args, spec.provider);
            var success := ConditionInfoOf(spec.successCondition, args, spec.provider);
            var m := TransformMetric(host, args, spec, result, name).value;
            && (m.spec.failThresholds.Some? <==> |fail.thresholds| > 0)
            && (m.spec.successThresholds.Some? <==> |success.thresholds| > 0)
            && (m.spec.failThresholds.Some? ==>
                  |m.spec.failThresholds.value| == |fail.thresholds| &&
                  forall i :: 0 <= i < |fail.thresholds| ==> m.spec.failThresholds.value[i] == Round2(fail.thresholds[i]))
            && (m.spec.successThresholds.Some? ==>
                  |m.spec.successThresholds.value| == |success.thresholds| &&
                  forall i :: 0 <= i < |success.thresholds| ==> m.spec.successThresholds.value[i] == Round2(success.thresholds[i]))
            && AllTwoDecimal(m.spec.failThresholds) && AllTwoDecimal(m.spec.successThresholds)
            && (forall k :: k in m.spec.conditionKeys <==> k in fail.conditionKeys || k in success.conditionKeys)
            && (forall i, j :: 0 <= i < j < |m.spec.conditionKeys| ==> m.spec.conditionKeys[i] != m.spec.conditionKeys[j])
            && Dedup(fail.conditionKeys) <= m.spec.conditionKeys
  {
    var fail := ConditionInfoOf(spec.failureCondition, args, spec.provider);
    var success := ConditionInfoOf(spec.successCondition, args, spec.provider);
    DedupPrefix(fail.conditionKeys, success.conditionKeys);
  }

  /** Where each field of a transformed metric comes from: the labels from their own
      condition, the queries from the provider, the status label and flag from the phase
      (`Unknown` when absent) and the counts (0 when absent), the series and its bounds
      from the measurements read by the metric's keys, and the top from `chartMax`. */
  lemma MetricWiring(host: Host, args: seq<Arg>, spec: MetricSpec, result: MetricResult, name: string)
    requires TransformMetric(host, args, spec, result, name).Ok?
    ensures var m := TransformMetric(host, args, spec, result, name).value;
            var info := TransformMeasurements(host, MetricKeys(args, spec), result.measurements);
            var phase := result.phase.GetOr(Unknown);
            var failures, errors, inconclusives := result.failed.GetOr(0), result.error.GetOr(0), result.inconclusive.GetOr(0);
            && info.Ok?
            && m.spec.failConditionLabel == ConditionInfoOf(spec.failureCondition, args, spec.provider).labelText
            && m.spec.successConditionLabel == ConditionInfoOf(spec.successCondition, args, spec.provider).labelText
            && m.spec.queries == MetricQueries(host, spec.provider, args)
            && m.spec.conditionKeys == MetricKeys(args, spec)
            && m.status.statusLabel == MetricStatusLabel(phase, failures, errors, inconclusives)
            && m.status.substatus == MetricSubstatus(phase, failures, errors, inconclusives)
            && m.status.transformedMeasurements == info.value.measurements
            && m.status.chartable == info.value.chartable
            && m.status.chartMin == info.value.min
            && m.status.chartMax == ChartMax(info.value.max, m.spec.failThresholds, m.spec.successThresholds)
  {
  }

  /** A metric fails to transform exactly when one of its measurement values throws. */
  lemma MetricFails(host: Host, args: seq<Arg>, spec: MetricSpec, result: MetricResult, name: string)
    ensures TransformMetric(host, args, spec, result, name).Err? <==>
              result.measurements.Some? &&
              exists i :: 0 <= i < |result.measurements.value| && ValueAt(host, MetricKeys(args, spec), result.measurements.value, i).Err?
  {
    MeasurementsFail(host, MetricKeys(args, spec), result.measurements);
  }

  /** What a transformed metric promises the chart's range: a lowest bound of at most 0,
      and a top at or above every threshold and every charted number. */
  lemma MetricChart(host: Host, args: seq<Arg>, spec: MetricSpec, result: MetricResult, name: string)
    requires TransformMetric(host, args, spec, result, name).Ok?
    ensures var m := TransformMetric(host, args, spec, result, name).value;
            && m.status.chartMin <= 0.0
            && (m.spec.failThresholds.Some? ==>
                  forall i :: 0 <= i < |m.spec.failThresholds.value| ==> m.spec.failThresholds.value[i] <= m.status.chartMax)
            && (m.spec.successThresholds.Some? ==>
                  forall i :: 0 <= i < |m.spec.successThresholds.value| ==> m.spec.successThresholds.value[i] <= m.status.chartMax)
            && (result.measurements.Some? ==>
                  forall i, x :: ContributesAt(host, m.spec.conditionKeys, result.measurements.value, i, x) ==> x <= m.status.chartMax)
  {
    var fail := ConditionInfoOf(spec.failureCondition, args, spec.provider);
    var success := ConditionInfoOf(spec.successCondition, args, spec.provider);
    var keys := Dedup(fail.conditionKeys + success.conditionKeys);
    var failThresholds, successThresholds := ChartThresholds(fail.thresholds), ChartThresholds(success.thresholds);
    if result.measurements.None? || result.measurements.value == [] {
      ChartMaxCovers(None, failThresholds, successThresholds);
    } else {
      var ms := result.measurements.value;
      var info := Fold(host, keys, ms).value;
      FoldBounds(host, keys, ms);
      BoundsRounded(host, keys, ms);
      ChartMaxCovers(info.max, failThresholds, successThresholds);
    }
  }
}
