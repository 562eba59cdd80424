# Analysis-run transforms of the Argo Rollouts dashboard

This project models in Dafny the transforms of the Argo Rollouts UI's analysis modal. They
turn an analysis run's spec and status into what the modal draws for each metric:

- the failure and success condition labels, with `{{ args.name }}` placeholders
  filled in from the run's arguments;
- the numeric thresholds that can be drawn on the chart, and the keys under which
  the compared values sit in a measurement;
- the provider queries to display;
- every measurement value's chart and table form;
- the chart's bounds;
- the metric's status label and its warning or error flag.

Each module follows one part of `transforms.ts`:

| module | models |
|---|---|
| `JsText` | the JavaScript string built-ins the code relies on (`trim`, `split` on one character, `String(n)`, `parseInt`, `parseFloat`/`Number` on a decimal literal, `toLowerCase`, `startsWith`) |
| `Numbers` | `roundNumber`: two decimals, halves rounded up as `Math.round` does |
| `JsonValues` | what `JSON.parse` returns, and the host conversions |
| `Interpolation` | `argValue` and `interpolateQuery` |
| `Providers` | the provider condition-support table and `metricQueries` |
| `Conditions` | `conditionDetails` |
| `StatusLabels` | `metricSubstatus` and `metricStatusLabel` |
| `MeasurementValues` | `isChartable`, `formattedValue` and `transformMeasurementValue` |
| `Measurements` | `transformMeasurements` |
| `Metrics` | `formatThresholdsForChart`, `chartMax` and `transformMetrics` |

Most of the code is pure, so it becomes functions and lemmas. Three loops that fill
arrays or objects become methods with loop invariants, each proved equal to the
function that specifies it:

- the subcondition `forEach` of `conditionDetails`: `Conditions.ConditionDetails`;
- the condition-key `forEach` of the object branch of `transformMeasurementValue`:
  `MeasurementValues.ProjectKeys`;
- the metric-result `forEach` of `transformMetrics`: `Metrics.TransformMetrics`.

The `reduce` of `transformMeasurements` is a left fold, `Measurements.Fold`.

Numbers are exact reals. Code that throws becomes a `Result` whose error says why:
JSON text that does not parse, or a JSON `null` whose fields are read. An error in
one measurement ends the whole `transformMetrics` with that error, as the uncaught
exception does.

Three JavaScript built-ins are passed in as the fields of a `Host` record and are not
modelled further:

- `JSON.parse`;
- `Number.prototype.toString`;
- `JSON.stringify`.

## Model

| member | source | states |
|---|---|---|
| Interpolation.ArgValue | ui/src/app/components/analysis-modal/transforms.ts:66-67 | the value returned belongs to an argument with that name; no argument with the name gives `null` |
| Interpolation.ArgValueFirstWins | ui/src/app/components/analysis-modal/transforms.ts:66-67 | the first argument carrying a name decides its value, even when that value is missing and later ones have one |
| Interpolation.CloseAt | ui/src/app/components/analysis-modal/transforms.ts:356 | the lazy `\{{.*?\}}` match ends at the first `}}` reachable without crossing a line end, and no match exists when every `}}` lies beyond a line end |
| Interpolation.Interpolate | ui/src/app/components/analysis-modal/transforms.ts:348-362 | a query is returned exactly when one is given, and unchanged when there are no arguments |
| Interpolation.Subst | ui/src/app/components/analysis-modal/transforms.ts:356-361 | the `replace` leaves a template without `{` unchanged |
| Interpolation.SubstWithoutPlaceholders | ui/src/app/components/analysis-modal/transforms.ts:356-361 | a template without `{{` is returned verbatim |
| Interpolation.SubstWithoutValues | ui/src/app/components/analysis-modal/transforms.ts:356-361 | when no argument has a value every match is put back as it was, so the template is returned verbatim |
| Interpolation.InterpolateOnePlaceholder | ui/src/app/components/analysis-modal/transforms.ts:346-361 | `{{ args.name }}` inside brace-free text becomes the value of the first argument with that name, or stays when there is none |
| Interpolation.SubstArgPlaceholder | ui/src/app/components/analysis-modal/transforms.ts:356-360 | a leading `{{ args.name }}` is one match; it is replaced by the argument's value, or kept, and the scan resumes after it |
| Interpolation.PlaceholderNameOf | ui/src/app/components/analysis-modal/transforms.ts:358-359 | stripping braces and spaces from `{{ args.name }}` and taking the second `.` segment gives back the name |
| Providers.AccessorSupport | ui/src/app/components/analysis-modal/transforms.ts:78-116 | only `result[0]`, `result`, `default(result, 0)` or a `result.` prefix can ever be a supported accessor |
| Providers.SupportedKey | ui/src/app/components/analysis-modal/transforms.ts:84-115 | for a supported accessor without spaces: key `0` for prometheus, graphite and influxdb; no key for datadog and wavefront; the text after `result.` for newRelic; cloudWatch, skywalking and unknown providers support none |
| Providers.MetricQueries | ui/src/app/components/analysis-modal/transforms.ts:370-422 | no provider gives no queries |
| Providers.SingleQueryShown | ui/src/app/components/analysis-modal/transforms.ts:370-421 | a single-query provider shows exactly its interpolated query, which is verbatim when it has no placeholder |
| Providers.DatadogQueriesHideFormula | ui/src/app/components/analysis-modal/transforms.ts:382-405 | datadog v2 with named queries shows each query interpolated, in order, even when a formula is given |
| Providers.NoQueriesShown | ui/src/app/components/analysis-modal/transforms.ts:382-421 | unsupported providers, and datadog with a version other than v1 or v2, show no queries |
| Conditions.SplitConditions | ui/src/app/components/analysis-modal/transforms.ts:147 | the first subcondition is a prefix of the condition |
| Conditions.SplitConditionsOperatorFree | ui/src/app/components/analysis-modal/transforms.ts:147 | no subcondition contains ` && ` or ` \|\| `, so every operator in the condition is a cut |
| Conditions.SplitConditionsSingle | ui/src/app/components/analysis-modal/transforms.ts:147 | a condition without ` && ` or ` \|\| ` is a single subcondition |
| Conditions.SplitConditionsFirst | ui/src/app/components/analysis-modal/transforms.ts:147 | a first subcondition without `&` or `\|` followed by an operator is cut off whole and the rest is split in turn |
| Conditions.Extract | ui/src/app/components/analysis-modal/transforms.ts:155-169 | a subcondition contributes exactly when it has three space-separated parts, an accessor the provider supports, a comparison containing `<` or `>`, and a literal that reads as a number |
| Conditions.ExtractValue | ui/src/app/components/analysis-modal/transforms.ts:155-169 | a contribution's threshold is the value of its third part, and its key is the one the provider gives the trimmed accessor |
| Conditions.ExtractKey | ui/src/app/components/analysis-modal/transforms.ts:154-171 | a subcondition that contributes pushes key `0` for prometheus, graphite and influxdb, no key for datadog and wavefront, and a key for newRelic; cloudWatch, skywalking and unknown providers never contribute |
| Conditions.ConditionInfoOf | ui/src/app/components/analysis-modal/transforms.ts:129-178 | the label is `null` exactly when the condition is missing or empty or there is no provider; otherwise it is the interpolated condition; a `null` label comes with no thresholds or keys; there are never more keys than thresholds |
| Conditions.ConditionDetails | ui/src/app/components/analysis-modal/transforms.ts:129-178 | the subcondition loop computes exactly `ConditionInfoOf` |
| Conditions.CollectThresholds | ui/src/app/components/analysis-modal/transforms.ts:154-171 | a threshold is present exactly when some subcondition contributes it, that is when the subcondition has three space-separated parts, an accessor the provider supports, an operator containing `<` or `>`, and a decimal literal of that value |
| Conditions.CollectOne | ui/src/app/components/analysis-modal/transforms.ts:155-169 | one subcondition pushes nothing when it does not contribute; otherwise its threshold, and its key when the provider gives one |
| Conditions.CollectConcat | ui/src/app/components/analysis-modal/transforms.ts:154-171 | the thresholds and the keys of a run of subconditions are those of its first part followed by those of the rest, so they come out in subcondition order |
| Conditions.CollectKeys | ui/src/app/components/analysis-modal/transforms.ts:154-171 | key `0` once per threshold for prometheus, graphite and influxdb; one key per threshold for newRelic; no keys for datadog and wavefront; neither keys nor thresholds for cloudWatch, skywalking and unknown providers |
| Conditions.LabelWithoutArgs | ui/src/app/components/analysis-modal/transforms.ts:138-177 | without arguments the label is the condition text itself |
| Conditions.SingleSubconditionThreshold | ui/src/app/components/analysis-modal/transforms.ts:147-171 | a condition without logical operators yields at most one threshold |
| Conditions.TwoComparisons | ui/src/app/components/analysis-modal/transforms.ts:129-178 | `accessor op1 d1 && accessor op2 d2` with a supported accessor gives the condition as label, thresholds `[d1, d2]` in order, and the accessor's key once per threshold |
| StatusLabels.MetricSubstatus | ui/src/app/components/analysis-modal/transforms.ts:275-294 | an error flag exactly for a running or successful metric with failures; a warning flag exactly for one without failures but with errors or inconclusives |
| StatusLabels.MetricStatusLabel | ui/src/app/components/analysis-modal/transforms.ts:305-339 | the label is empty exactly for a phase outside the enumeration, and a successful metric's label starts with `Analysis passed` |
| StatusLabels.QualifierByProblems | ui/src/app/components/analysis-modal/transforms.ts:323-335 | a successful label has no qualifier exactly when there was no problem, names the kind of problem when there was one kind, and says multiple issues exactly when there were two or more |
| StatusLabels.SuccessLabelsDistinct | ui/src/app/components/analysis-modal/transforms.ts:305-339 | two successful labels are equal exactly when their qualifiers are; it is bare `Analysis passed` exactly when there was no problem |
| StatusLabels.SuccessFlagAgreesWithQualifier | ui/src/app/components/analysis-modal/transforms.ts:275-335 | for a successful metric the flag is absent exactly when the label has no qualifier, and is an error exactly when the problems include failures |
| StatusLabels.LabelsAndFlagsByPhase | ui/src/app/components/analysis-modal/transforms.ts:275-339 | only a phase outside the enumeration has an empty label; the label starts with `Analysis passed` exactly when the metric succeeded; a flag is only raised for running and successful metrics |
| MeasurementValues.Formatted | ui/src/app/components/analysis-modal/transforms.ts:481-484 | numbers come out rounded to two decimals, within half a cent of the input; `null` stays `null`; a string stays the same string; every other value becomes its text |
| MeasurementValues.IsChartable | ui/src/app/components/analysis-modal/transforms.ts:474 | a value is chartable exactly when it is not a boolean, string, array or object, that is when it is a number or `null` |
| MeasurementValues.ChartableShown | ui/src/app/components/analysis-modal/transforms.ts:474-484 | a value is chartable exactly when its formatted form is not text |
| MeasurementValues.ProjectKeys | ui/src/app/components/analysis-modal/transforms.ts:558-576 | the key loop's table has exactly the condition keys, each with its field's formatted value or `null`; the loop's chartable flag says whether every present field is a number or `null` |
| MeasurementValues.Classify | ui/src/app/components/analysis-modal/transforms.ts:508-582 | a parsed value throws exactly when it is JSON `null`; a chartable result always has a chart value; a scalar table entry of a non-number is its text; a keyed chart value is the table value |
| MeasurementValues.TransformValue | ui/src/app/components/analysis-modal/transforms.ts:492-583 | a missing or empty value is chartable `null` in chart and table; text that is not JSON throws; a chartable result has a chart value |
| MeasurementValues.TransformMeasurementValue | ui/src/app/components/analysis-modal/transforms.ts:492-583 | the method, with its key loop, computes exactly `TransformValue` |
| MeasurementValues.NumberValue | ui/src/app/components/analysis-modal/transforms.ts:511-518 | a JSON number is chartable and shows rounded to two decimals in chart and table |
| MeasurementValues.KeyedArrayValue | ui/src/app/components/analysis-modal/transforms.ts:521-538 | with one key that `parseInt` reads as an integer, a non-empty array shows its element at that index, or `null` when there is none, under the decimal text of that integer (so keys ` 1` and `1abc` are both filed under `1`); a number, string or `null` is formatted and charted as in the table; any other element is only shown as text in the table; it charts exactly when that element is a number or `null` |
| MeasurementValues.KeyedStringElement | ui/src/app/components/analysis-modal/transforms.ts:526-532 | a string element is shown under the key in chart and table, but the value does not chart |
| MeasurementValues.NonIntegerKeyValue | ui/src/app/components/analysis-modal/transforms.ts:540-543 | with one key that is not an integer, a non-empty array is not charted and its text fills the table |
| MeasurementValues.FirstElementValue | ui/src/app/components/analysis-modal/transforms.ts:547-555 | with no keys or two or more, a non-empty array charts exactly when its first element is a number or `null`, with that element formatted as the chart value, and its text fills the table |
| MeasurementValues.UnstructuredValue | ui/src/app/components/analysis-modal/transforms.ts:579-582 | a boolean, a string, an empty array, or an object when there are no keys is not charted and its text fills the table |
| MeasurementValues.ObjectValue | ui/src/app/components/analysis-modal/transforms.ts:558-576 | an object with keys shows exactly those keys, each with its field's formatted value or `null` when the field is absent; it charts exactly when every present field is a number or `null` and at least one key shows something other than `null` |
| MeasurementValues.NullValueThrows | ui/src/app/components/analysis-modal/transforms.ts:558-582 | among parsed values, JSON `null`, and only it, makes the transformation throw |
| MeasurementValues.ChartValuesRounded | ui/src/app/components/analysis-modal/transforms.ts:481-583 | every number in a chart value has at most two decimals |
| Measurements.Fold | ui/src/app/components/analysis-modal/transforms.ts:442-466 | a successful fold has one transformed measurement per input |
| Measurements.Step | ui/src/app/components/analysis-modal/transforms.ts:447-463 | one step fails exactly when the value throws; otherwise it appends the measurement, the series stays chartable exactly when it was and the value is chartable, the minimum never rises, a maximum once present never falls, and a charted number lies between the new bounds |
| Measurements.FoldDecodes | ui/src/app/components/analysis-modal/transforms.ts:442-466 | the fold fails exactly when some measurement's value throws |
| Measurements.FoldMeasurements | ui/src/app/components/analysis-modal/transforms.ts:442-466 | measurement `i` of the output is input `i` with its own chart and table values; the series is chartable exactly when every value is |
| Measurements.FoldBounds | ui/src/app/components/analysis-modal/transforms.ts:449-465 | the minimum is at most 0 and at most every charted number, and is 0 or one of them; the maximum is absent exactly when no number was charted, and otherwise is at least 0 and every charted number, and is 0 or one of them |
| Measurements.TransformMeasurements | ui/src/app/components/analysis-modal/transforms.ts:432-440 | no measurements give an unchartable, empty summary with minimum 0 and no maximum |
| Measurements.MeasurementsFail | ui/src/app/components/analysis-modal/transforms.ts:432-467 | transforming the measurements fails exactly when some measurement's value throws |
| Measurements.BoundsRounded | ui/src/app/components/analysis-modal/transforms.ts:449-454 | both bounds have at most two decimals |
| Measurements.TransformMeasurementsKeepsOrder | ui/src/app/components/analysis-modal/transforms.ts:432-467 | a successful transformation keeps every measurement, in input order |
| Numbers.Round2 | ui/src/app/components/analysis-modal/transforms.ts:15 | the result has two decimals and is the nearest such number, halves rounded up |
| Numbers.Round2Monotone | ui/src/app/components/analysis-modal/transforms.ts:15 | rounding keeps order |
| Numbers.Round2Idempotent | ui/src/app/components/analysis-modal/transforms.ts:15 | rounding twice is rounding once |
| Numbers.Headroom | ui/src/app/components/analysis-modal/transforms.ts:197 | 120% of a non-negative two-decimal number, rounded, is never below it |
| Metrics.FormatThresholds | ui/src/app/components/analysis-modal/transforms.ts:185 | one entry per threshold, each its own threshold rounded to two decimals |
| Metrics.FormatThresholdsIdempotent | ui/src/app/components/analysis-modal/transforms.ts:185 | formatting formatted thresholds changes nothing |
| Metrics.FormatThresholdsMonotone | ui/src/app/components/analysis-modal/transforms.ts:185 | formatting keeps the thresholds' order |
| Metrics.Highest | ui/src/app/components/analysis-modal/transforms.ts:195-197 | the greatest of the value maximum and every present threshold, and equal to one of them |
| Metrics.ChartMax | ui/src/app/components/analysis-modal/transforms.ts:194-198 | the top has two decimals and is 120% of the greatest of the value maximum and every threshold, rounded to within half a cent |
| Metrics.ChartMaxCovers | ui/src/app/components/analysis-modal/transforms.ts:194-198 | the chart's top is at least the measurements' maximum and every threshold |
| Metrics.ChartMaxMonotone | ui/src/app/components/analysis-modal/transforms.ts:194-198 | raising the measurement maximum, or replacing the failure or success thresholds by a list in which every old threshold has a new one at or above it, never lowers the chart's top |
| Metrics.PointwiseDominated | ui/src/app/components/analysis-modal/transforms.ts:194-198 | threshold lists compared place by place, or an absent list, meet the precondition of `ChartMaxMonotone` |
| Metrics.Dedup | ui/src/app/components/analysis-modal/transforms.ts:225 | the same keys without repeats |
| Metrics.DedupDistinct | ui/src/app/components/analysis-modal/transforms.ts:225 | keys that are already distinct come back unchanged |
| Metrics.DedupPrefix | ui/src/app/components/analysis-modal/transforms.ts:225 | the failure condition's keys come first, in their own order |
| Metrics.FindSpec | ui/src/app/components/analysis-modal/transforms.ts:215 | the definition found is the first one carrying the name; none is found exactly when no definition has it |
| Metrics.TransformMetricsOf | ui/src/app/components/analysis-modal/transforms.ts:205-208 | without a spec or a status the result is empty |
| Metrics.TransformMetric | ui/src/app/components/analysis-modal/transforms.ts:217-259 | a metric without measurements always transforms; a transformed metric keeps its name, definition and result, has one transformed measurement per measurement, and a chart top with two decimals |
| Metrics.TransformOne | ui/src/app/components/analysis-modal/transforms.ts:217-259 | the callback for a matched result, with both `conditionDetails` loops, computes exactly the transformed metric |
| Metrics.TransformMetrics | ui/src/app/components/analysis-modal/transforms.ts:205-264 | the loop over the results computes exactly `TransformMetricsOf` |
| Metrics.ReplayErrors | ui/src/app/components/analysis-modal/transforms.ts:213-261 | the loop throws exactly when an entry throws, and then with the first such entry's error |
| Metrics.ReplayNames | ui/src/app/components/analysis-modal/transforms.ts:213-261 | the output's names are exactly those of the entries that were transformed |
| Metrics.ReplayLastWins | ui/src/app/components/analysis-modal/transforms.ts:229 | an entry is the one kept under its name when no later entry has that name |
| Metrics.MetricNames | ui/src/app/components/analysis-modal/transforms.ts:213-229 | the output holds exactly the display names (`Unknown metric <index>` for an unnamed result) of the results that have a definition |
| Metrics.MetricErrors | ui/src/app/components/analysis-modal/transforms.ts:213-261 | `transformMetrics` throws exactly when a matched result's transformation throws |
| Metrics.FirstErrorReported | ui/src/app/components/analysis-modal/transforms.ts:213-261 | the error reported is that of the first matched result whose transformation throws |
| Metrics.LastResultWins | ui/src/app/components/analysis-modal/transforms.ts:213-229 | among results sharing a display name, the last one's metric is kept |
| Metrics.MetricConditions | ui/src/app/components/analysis-modal/transforms.ts:219-225 | thresholds are present exactly when the condition had some, one per threshold, each that threshold rounded to two decimals; the keys are those of both conditions, each once, the failure condition's first |
| Metrics.MetricWiring | ui/src/app/components/analysis-modal/transforms.ts:226-257 | each field of the transformed metric: the failure and success labels from their own condition, the queries from the provider, the keys of both conditions, the status label and flag from the phase (`Unknown` when absent) and the failure, error and inconclusive counts (0 when absent) in that order, the series, its chartable flag and lowest bound from the measurements read by those keys, and the top as `chartMax` of the measurements' maximum and both threshold lists |
| Metrics.MetricFails | ui/src/app/components/analysis-modal/transforms.ts:217-259 | a metric fails to transform exactly when one of its measurement values throws |
| Metrics.MetricChart | ui/src/app/components/analysis-modal/transforms.ts:228-257 | the chart's lowest bound is at most 0, and its top is at or above every threshold and every charted number |

## Left out

- `analysisStartTime`, `analysisEndTime` and `isValidDate` are not modelled: they parse dates with `moment` and read the clock.
- Numbers are exact reals, not IEEE doubles. Rounding errors, `NaN`, `Infinity` and `-0` are left out. A JSON number that `JSON.parse` would turn into `Infinity` is out of the model.
- `JSON.parse`, `Number.prototype.toString` and `JSON.stringify` are parameters. Only the shape of their results is modelled, not their text.
- Conditions.CollectThresholds: a threshold literal is read by one plain-decimal reader that stands for both `parseFloat` and `Number`. A literal only `parseFloat` accepts (`5abc`, `1_0`) is treated as not chartable, although the code then pushes `NaN` and, for a provider that gives a key, the key as well. A literal the two read differently (`0x10`) is likewise out of the model.
- `metricProvider` takes the first key of the provider object. The provider is modelled as one variant per known provider type, plus `Unsupported` for any other first key, so the insertion order of keys in an object with several providers is left out.
- The analysis status enum is the `Phase` datatype. Its string values live in `types.ts`, which is not part of this model. Any other phase text is `Other`.
- The `{...metricSpec}` and `{...metricResults}` spreads are modelled as fields holding the whole definition and result. Only the fields the transforms read are spelled out.
- `Object.values` order over an object's fields and `toLowerCase` beyond ASCII letters are not modelled.
- Object keys that JavaScript's `in` finds on the prototype chain (such as `constructor`) are not modelled. A condition key is present in an object exactly when the object has that field.
- `parseInt` on a key is exact for integers of any size. The loss of precision beyond 2^53 is not modelled.
