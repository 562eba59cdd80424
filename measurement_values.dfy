/** `transformMeasurementValue`, `formattedValue` and `isChartable`: how one
    JSON-encoded measurement value becomes a chart value and a table value. */
module MeasurementValues {
  import opened Wrappers
  import opened JsText
  import opened Numbers
  import opened JsonValues

  /** A displayed value: `null`, a number rounded to two decimals, or text. */
  datatype Shown = ShownNull | ShownNumber(n: real) | ShownText(text: string)

  /** A chart or table entry: one value, or an object from keys to values. */
  datatype Cell = Scalar(shown: Shown) | Keyed(entries: map<string, Shown>)

  /** What a measurement value becomes; a `None` chart value is an absent one. */
  datatype TransformedValue = TransformedValue(canChart: bool, chartValue: Option<Cell>, tableValue: Cell)

  /** The ways the transformation throws: the text is not JSON, or it is JSON `null`,
      which the object branch and the final `toString` both dereference. */
  datatype DecodeError = MalformedJson | NullDereference

  /** `isChartable`: a (finite) number or `null`; booleans, strings, arrays and objects
      never chart. */
  predicate IsChartable(j: Json)
    ensures IsChartable(j) <==> !(j.JBool? || j.JStr? || j.JArr? || j.JObj?)
  {
    j.JNum? || j.JNull?
  }

  /** `formattedValue`: a number rounded to two decimals, `null` kept, anything else
      in its string form (a string unchanged). */
  function Formatted(host: Host, j: Json): (r: Shown)
    ensures r.ShownNumber? <==> j.JNum?
    ensures r.ShownNull? <==> j.JNull?
    ensures r.ShownNumber? ==> TwoDecimal(r.n) && j.n - 0.005 < r.n <= j.n + 0.005
    ensures r.ShownText? ==> r.text == Text(host, j)
    ensures j.JStr? ==> r == ShownText(j.s)
  {
    match j
    case JNum(n) => ShownNumber(Round2(n))
    case JNull => ShownNull
    case _ => ShownText(Text(host, j))
  }

  /** A value charts exactly when it is not displayed as text. */
  lemma ChartableShown(host: Host, j: Json)
    ensures IsChartable(j) <==> !Formatted(host, j).ShownText?
  {
  }

  /** The element an index selects, `null` when there is none (`parsedValue?.[k] ?? null`). */
  function ElementAt(items: seq<Json>, k: int): Json {
    if 0 <= k < |items| then items[k] else JNull
  }

  /** What the object branch shows under one condition key. */
  function ShownAt(host: Host, fields: map<string, Json>, key: string): Shown {
    if key in fields then Formatted(host, fields[key]) else ShownNull
  }

  /** The object branch's table: every condition key, with its field's formatted value
      or `null` when the object lacks it. */
  function Projection(host: Host, fields: map<string, Json>, keys: seq<string>): (r: map<string, Shown>)
    ensures r.Keys == set k | k in keys
  {
    map k | k in keys :: ShownAt(host, fields, k)
  }

  /** Every condition key the object has holds a number or `null`. */
  predicate PresentChartable(fields: map<string, Json>, keys: seq<string>) {
    forall i :: 0 <= i < |keys| && keys[i] in fields ==> IsChartable(fields[keys[i]])
  }

  /** Some condition key shows a value other than `null`. */
  predicate SomeShown(host: Host, fields: map<string, Json>, keys: seq<string>) {
    exists i :: 0 <= i < |keys| && ShownAt(host, fields, keys[i]) != ShownNull
  }

  /** The `forEach` over the condition keys in the object branch: the table it fills and
      whether every present value was chartable. */
  method ProjectKeys(host: Host, fields: map<string, Json>, keys: seq<string>) returns (projected: map<string, Shown>, canChart: bool)
    ensures projected == Projection(host, fields, keys)
    ensures canChart == PresentChartable(fields, keys)
  {
    projected := map[];
    canChart := true;
    var i := 0;
    while i < |keys|
      invariant 0 <= i <= |keys|
      invariant projected == Projection(host, fields, keys[..i])
      invariant canChart == PresentChartable(fields, keys[..i])
    {
      var key := keys[i];
      if key in fields {
        var value := fields[key];
        canChart := canChart && IsChartable(value);
        projected := projected[key := Formatted(host, value)];
      } else {
        projected := projected[key := ShownNull];
      }
      assert keys[..i + 1] == keys[..i] + [key];
      i := i + 1;
    }
    assert keys[..i] == keys;
  }

  /** The branches after a successful parse, in the order the source tries them. */
  function Classify(host: Host, keys: seq<string>, parsed: Json): (r: Result<TransformedValue, DecodeError>)
    ensures r.Err? <==> parsed.JNull?
    ensures r.Ok? && r.value.canChart ==> r.value.chartValue.Some?
    ensures r.Ok? && r.value.tableValue.Scalar? && !parsed.JNum? ==> r.value.tableValue == Scalar(ShownText(Text(host, parsed)))
    ensures r.Ok? && r.value.tableValue.Keyed? && r.value.chartValue.Some? ==> r.value.chartValue == Some(r.value.tableValue)
  {
    match parsed
    case JNum(n) =>
      var shown := Scalar(Formatted(host, parsed));
      Ok(TransformedValue(true, Some(shown), shown))
    case JArr(items) =>
      if |items| > 0 && |keys| == 1 then
        match ParseInt(keys[0])
        case Some(k) =>
          var element := ElementAt(items, k);
          if element.JNum? || element.JStr? || element.JNull? then
            var shown := Keyed(map[IntText(k) := Formatted(host, element)]);
            Ok(TransformedValue(IsChartable(element), Some(shown), shown))
          else Ok(TransformedValue(false, None, Keyed(map[IntText(k) := ShownText(Text(host, element))])))
        case None => Ok(TransformedValue(false, None, Scalar(ShownText(Text(host, parsed)))))
      else if |items| > 0 then
        var first := items[0];
        Ok(TransformedValue(IsChartable(first), if IsChartable(first) then Some(Scalar(Formatted(host, first))) else None,
                            Scalar(ShownText(Text(host, parsed)))))
      else Ok(TransformedValue(false, None, Scalar(ShownText(Text(host, parsed)))))
    case JObj(fields) =>
      if |keys| > 0 then
        var shown := Keyed(Projection(host, fields, keys));
        Ok(TransformedValue(PresentChartable(fields, keys) && SomeShown(host, fields, keys), Some(shown), shown))
      else Ok(TransformedValue(false, None, Scalar(ShownText(Text(host, parsed)))))
    case JNull => Err(NullDereference)
    case _ => Ok(TransformedValue(false, None, Scalar(ShownText(Text(host, parsed)))))
  }

  /** `transformMeasurementValue` as a function of the raw text: a missing or empty value
      is a chartable `null`, text that does not parse is an error. */
  function TransformValue(host: Host, keys: seq<string>, raw: Option<string>): (r: Result<TransformedValue, DecodeError>)
    ensures raw.None? || raw == Some("") ==> r == Ok(TransformedValue(true, Some(Scalar(ShownNull)), Scalar(ShownNull)))
    ensures raw.Some? && raw != Some("") && host.parse(raw.value).None? ==> r == Err(MalformedJson)
    ensures r.Ok? && r.value.canChart ==> r.value.chartValue.Some?
  {
    if raw.None? || raw.value == "" then Ok(TransformedValue(true, Some(Scalar(ShownNull)), Scalar(ShownNull)))
    else
      match host.parse(raw.value)
      case None => Err(MalformedJson)
      case Some(parsed) => Classify(host, keys, parsed)
  }

  /** `transformMeasurementValue` as the source runs it, the object branch by its loop. */
  method TransformMeasurementValue(host: Host, keys: seq<string>, raw: Option<string>) returns (r: Result<TransformedValue, DecodeError>)
    ensures r == TransformValue(host, keys, raw)
  {
    if raw.None? || raw.value == "" {
      return Ok(TransformedValue(true, Some(Scalar(ShownNull)), Scalar(ShownNull)));
    }
    var parsed := host.parse(raw.value);
    if parsed.None? {
      return Err(MalformedJson);
    }
    if parsed.value.JObj? && |keys| > 0 {
      var projected, canChart := ProjectKeys(host, parsed.value.fields, keys);
      var allNull := forall k :: k in projected.Values ==> k == ShownNull;
      assert allNull <==> !SomeShown(host, parsed.value.fields, keys) by {
        if !allNull {
          var v :| v in projected.Values && v != ShownNull;
          var k :| k in projected && projected[k] == v;
          var i :| 0 <= i < |keys| && keys[i] == k;
          assert ShownAt(host, parsed.value.fields, keys[i]) != ShownNull;
        }
        if SomeShown(host, parsed.value.fields, keys) {
          var i :| 0 <= i < |keys| && ShownAt(host, parsed.value.fields, keys[i]) != ShownNull;
          assert projected[keys[i]] in projected.Values;
        }
      }
      return Ok(TransformedValue(canChart && !allNull, Some(Keyed(projected)), Keyed(projected)));
    }
    return Classify(host, keys, parsed.value);
  }

  /** A number is shown rounded to two decimals, in the chart and in the table. */
  lemma NumberValue(host: Host, keys: seq<string>, raw: string, n: real)
    requires raw != "" && host.parse(raw) == Some(JNum(n))
    ensures TransformValue(host, keys, Some(raw)) == Ok(TransformedValue(true, Some(Scalar(ShownNumber(Round2(n)))), Scalar(ShownNumber(Round2(n)))))
  {
  }

  /** With one condition key that reads as an integer `k`, an array shows its element
      at `k` under the text of `k`: a number, string or missing element is shown
      formatted in chart and table (charted only when it is a number or missing), any
      other element only in the table, as its string form. */
  lemma KeyedArrayValue(host: Host, key: string, k: int, raw: string, items: seq<Json>)
    requires raw != "" && host.parse(raw) == Some(JArr(items)) && |items| > 0
    requires ParseInt(key) == Some(k)
    ensures var r := TransformValue(host, [key], Some(raw));
            var element := ElementAt(items, k);
            && r.Ok?
            && r.value.canChart == IsChartable(element)
            && (element.JNum? || element.JStr? || element.JNull? ==>
                  r.value.chartValue == Some(r.value.tableValue) &&
                  r.value.tableValue == Keyed(map[IntText(k) := Formatted(host, element)]))
            && (!(element.JNum? || element.JStr? || element.JNull?) ==>
                  r.value.chartValue.None? &&
                  r.value.tableValue == Keyed(map[IntText(k) := ShownText(Text(host, element))]))
  {
    ClassifyKeyedArray(host, key, k, items);
  }

  lemma ClassifyKeyedArray(host: Host, key: string, k: int, items: seq<Json>)
    requires ParseInt(key) == Some(k) && |items| > 0
    ensures var element := ElementAt(items, k);
            var shown := Keyed(map[IntText(k) := Formatted(host, element)]);
            Classify(host, [key], JArr(items)) ==
              if element.JNum? || element.JStr? || element.JNull? then Ok(TransformedValue(IsChartable(element), Some(shown), shown))
              else Ok(TransformedValue(false, None, Keyed(map[IntText(k) := ShownText(Text(host, element))])))
  {
  }

  /** A string element at the key is charted as the string, yet marks the value as not
      chartable. */
  lemma KeyedStringElement(host: Host, key: string, k: int, raw: string, items: seq<Json>)
    requires raw != "" && host.parse(raw) == Some(JArr(items)) && |items| > 0
    requires ParseInt(key) == Some(k) && ElementAt(items, k).JStr?
    ensures var r := TransformValue(host, [key], Some(raw));
            var shown := Keyed(map[IntText(k) := ShownText(ElementAt(items, k).s)]);
            r == Ok(TransformedValue(false, Some(shown), shown))
  {
    KeyedArrayValue(host, key, k, raw, items);
  }

  /** With one condition key that does not read as an integer, an array is only shown
      in the table, as its string form. */
  lemma NonIntegerKeyValue(host: Host, key: string, raw: string, items: seq<Json>)
    requires raw != "" && host.parse(raw) == Some(JArr(items)) && |items| > 0
    requires ParseInt(key).None?
    ensures TransformValue(host, [key], Some(raw)) == Ok(TransformedValue(false, None, Scalar(ShownText(Text(host, JArr(items))))))
  {
  }

  /** Without exactly one condition key, a non-empty array charts its first element
      when that is a number or `null`, and its table shows the whole array's text. */
  lemma FirstElementValue(host: Host, keys: seq<string>, raw: string, items: seq<Json>)
    requires raw != "" && host.parse(raw) == Some(JArr(items)) && |items| > 0 && |keys| != 1
    ensures var r := TransformValue(host, keys, Some(raw));
            && r.Ok?
            && r.value.canChart == IsChartable(items[0])
            && (r.value.chartValue.Some? <==> IsChartable(items[0]))
            && (IsChartable(items[0]) ==> r.value.chartValue == Some(Scalar(Formatted(host, items[0]))))
            && r.value.tableValue == Scalar(ShownText(Text(host, JArr(items))))
  {
  }

  /** Booleans, strings, the empty array, and an object when there are no condition
      keys are never charted; the table shows their string form. */
  lemma UnstructuredValue(host: Host, keys: seq<string>, raw: string, parsed: Json)
    requires raw != "" && host.parse(raw) == Some(parsed)
    requires parsed.JBool? || parsed.JStr? || parsed == JArr([]) || (parsed.JObj? && keys == [])
    ensures TransformValue(host, keys, Some(raw)) == Ok(TransformedValue(false, None, Scalar(ShownText(Text(host, parsed)))))
  {
  }

  /** An object with condition keys is shown under exactly those keys, each with its
      field's formatted value or `null`; it is charted when every present field is a
      number or `null` and at least one key shows a value. */
  lemma ObjectValue(host: Host, keys: seq<string>, raw: string, fields: map<string, Json>)
    requires raw != "" && host.parse(raw) == Some(JObj(fields)) && |keys| > 0
    ensures var r := TransformValue(host, keys, Some(raw));
            && r.Ok? && r.value.tableValue.Keyed?
            && r.value.chartValue == Some(r.value.tableValue)
            && r.value.tableValue.entries.Keys == set k | k in keys
            && (forall k :: k in keys && k !in fields ==> r.value.tableValue.entries[k] == ShownNull)
            && (forall k :: k in keys && k in fields ==> r.value.tableValue.entries[k] == Formatted(host, fields[k]))
            && (r.value.canChart <==> PresentChartable(fields, keys) && SomeShown(host, fields, keys))
  {
  }

  /** JSON `null` always throws, and only it does among parsed values. */
  lemma NullValueThrows(host: Host, keys: seq<string>, raw: string)
    requires raw != "" && host.parse(raw).Some?
    ensures TransformValue(host, keys, Some(raw)).Err? <==> host.parse(raw) == Some(JNull)
  {
  }

  /** Every number in a chart value is rounded to two decimals. */
  predicate ChartNumbersRounded(c: Cell) {
    match c
    case Scalar(s) => s.ShownNumber? ==> TwoDecimal(s.n)
    case Keyed(entries) => forall k :: k in entries && entries[k].ShownNumber? ==> TwoDecimal(entries[k].n)
  }

  lemma {:induction false} ChartValuesRounded(host: Host, keys: seq<string>, raw: Option<string>)
    requires TransformValue(host, keys, raw).Ok?
    ensures var tv := TransformValue(host, keys, raw).value;
            && ChartNumbersRounded(tv.tableValue)
            && (tv.chartValue.Some? ==> ChartNumbersRounded(tv.chartValue.value))
  {
    if raw.Some? && raw.value != "" {
      var parsed := host.parse(raw.value).value;
      if parsed.JObj? && |keys| > 0 {
        var entries := Projection(host, parsed.fields, keys);
        forall k | k in entries && entries[k].ShownNumber?
          ensures TwoDecimal(entries[k].n)
        {
          assert entries[k] == ShownAt(host, parsed.fields, k);
        }
      }
    }
  }
}
