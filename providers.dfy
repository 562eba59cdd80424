/** Metric providers: which condition accessors each one supports
    (`PROVIDER_CONDITION_SUPPORT`) and the queries shown for it (`metricQueries`). */
module Providers {
  import opened Wrappers
  import opened JsText
  import opened JsonValues
  import opened Interpolation

  /** The provider of a metric, tagged by its type. Each provider carries the query
      fields the display needs; `Unsupported` covers every other provider type
      (kayenta, web, job, plugin, or none at all). */
  datatype Provider =
    | Prometheus(query: Option<string>)
    | Datadog(apiVersion: Option<string>, query: Option<string>, formula: Option<string>, queries: Option<seq<string>>)
    | Wavefront(query: Option<string>)
    | NewRelic(query: Option<string>)
    | CloudWatch(metricDataQueries: Option<seq<Json>>)
    | Graphite(query: Option<string>)
    | Influxdb(query: Option<string>)
    | Skywalking(query: Option<string>)
    | Unsupported(providerType: string)

  /** Whether an accessor has a shape the provider's results can be charted by, and the
      key under which the compared value sits in a measurement. */
  datatype Support = Support(isFormatSupported: bool, conditionKey: Option<string>)

  /** One entry of the provider condition-support table applied to an accessor; a
      provider type the table lacks supports nothing. */
  function AccessorSupport(p: Provider, accessor: string): (r: Support)
    ensures r.isFormatSupported ==>
              || accessor == "result[0]"
              || accessor == "result"
              || accessor == "default(result, 0)"
              || StartsWith(accessor, "result.")
  {
    match p
    case Prometheus(_) => Support(accessor == "result[0]", Some("0"))
    case Graphite(_) => Support(accessor == "result[0]", Some("0"))
    case Influxdb(_) => Support(accessor == "result[0]", Some("0"))
    case Datadog(_, _, _, _) =>
      Support(accessor == "result" || accessor == "default(result, 0)", if '0' in accessor then Some("0") else None)
    case Wavefront(_) => Support(accessor == "result", None)
    case NewRelic(_) => Support(StartsWith(accessor, "result."), Some(if |accessor| >= 7 then accessor[7..] else ""))
    case CloudWatch(_) => Support(false, None)
    case Skywalking(_) => Support(false, None)
    case Unsupported(_) => Support(false, None)
  }

  /** A supported accessor with no space in it names its key as the table says:
      `"0"` for the `result[0]` providers, none for datadog and wavefront (their only
      space-free supported accessor is `result`), the path after `result.` for newRelic. */
  lemma SupportedKey(p: Provider, accessor: string)
    requires AccessorSupport(p, accessor).isFormatSupported
    requires ' ' !in accessor
    ensures p.Prometheus? || p.Graphite? || p.Influxdb? ==> AccessorSupport(p, accessor).conditionKey == Some("0")
    ensures p.Datadog? || p.Wavefront? ==> AccessorSupport(p, accessor).conditionKey == None
    ensures p.NewRelic? ==> AccessorSupport(p, accessor).conditionKey == Some(accessor[7..])
    ensures p.CloudWatch? || p.Skywalking? || p.Unsupported? ==> false
  {
    if p.Datadog? {
      assert accessor != "default(result, 0)" by {
        assert "default(result, 0)"[15] == ' ';
      }
      assert accessor == "result";
    }
  }

  /** The indentation that the two-line datadog formula display carries on its second line. */
  const FormulaIndent: string := "                            "

  /** `metricQueries`: the queries shown for a metric, each template interpolated with
      the run's arguments; `None` where the provider has nothing to show. */
  function MetricQueries(host: Host, provider: Option<Provider>, args: seq<Arg>): (r: Option<seq<Option<string>>>)
    ensures provider.None? ==> r.None?
  {
    if provider.None? then None
    else
      match provider.value
      case Prometheus(q) => Some([Interpolate(q, Some(args))])
      case Datadog(version, q, formula, queries) =>
        var v := AsciiLower(version.GetOr(""));
        if v == "v1" && q.Some? then Some([Interpolate(q, Some(args))])
        else if v == "v2" then
          if q.Some? then
            if formula.Some? then Some([Some("query: " + q.value + ", \n" + FormulaIndent + "formula: " + formula.value)])
            else Some([Interpolate(q, Some(args))])
          else if queries.Some? then
            Some(seq(|queries.value|, i requires 0 <= i < |queries.value| => Interpolate(Some(queries.value[i]), Some(args))))
          else None
        else None
      case Wavefront(q) => Some([Interpolate(q, Some(args))])
      case NewRelic(q) => Some([Interpolate(q, Some(args))])
      case CloudWatch(dataQueries) =>
        if dataQueries.Some? then
          Some(seq(|dataQueries.value|, i requires 0 <= i < |dataQueries.value| => Some(host.stringify(dataQueries.value[i]))))
        else None
      case Graphite(q) => Some([Interpolate(q, Some(args))])
      case Influxdb(q) => Some([Interpolate(q, Some(args))])
      case Skywalking(q) => Some([Interpolate(q, Some(args))])
      case Unsupported(_) => None
  }

  /** The providers that hold one query template. */
  predicate SingleQuery(p: Provider) {
    p.Prometheus? || p.Wavefront? || p.NewRelic? || p.Graphite? || p.Influxdb? || p.Skywalking?
  }

  /** A single-query provider shows exactly its template, interpolated; a template
      without placeholders is shown verbatim. */
  lemma SingleQueryShown(host: Host, p: Provider, args: seq<Arg>)
    requires SingleQuery(p)
    ensures MetricQueries(host, Some(p), args) == Some([Interpolate(p.query, Some(args))])
    ensures p.query.Some? && !HasOpening(p.query.value) ==> MetricQueries(host, Some(p), args) == Some([p.query])
  {
    if p.query.Some? && !HasOpening(p.query.value) {
      SubstWithoutPlaceholders(p.query.value, args);
    }
  }

  /** Datadog v2 with named queries always shows the interpolated queries, even when a
      formula is present: the branch meant to show the formula tests for a field spelt
      `fomula`, which a provider never has. */
  lemma DatadogQueriesHideFormula(host: Host, version: string, formula: string, queries: seq<string>, args: seq<Arg>)
    requires AsciiLower(version) == "v2"
    ensures var r := MetricQueries(host, Some(Datadog(Some(version), None, Some(formula), Some(queries))), args);
            && r.Some? && |r.value| == |queries|
            && forall i :: 0 <= i < |queries| ==> r.value[i] == Interpolate(Some(queries[i]), Some(args))
  {
  }

  /** Providers without display support, and datadog with an unknown API version, show nothing. */
  lemma NoQueriesShown(host: Host, p: Provider, args: seq<Arg>)
    requires p.Unsupported? || (p.Datadog? && AsciiLower(p.apiVersion.GetOr("")) != "v1" && AsciiLower(p.apiVersion.GetOr("")) != "v2")
    ensures MetricQueries(host, Some(p), args) == None
  {
  }
}
