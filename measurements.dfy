/** `transformMeasurements`: every measurement of a metric transformed, with whether
    the whole series can be charted and the bounds the chart needs. */
module Measurements {
  import opened Wrappers
  import opened Numbers
  import opened JsonValues
  import opened MeasurementValues

  /** A measurement as the status reports it; only `value` is read, the rest is copied. */
  datatype Measurement = Measurement(
    phase: Option<string>,
    value: Option<string>,
    startedAt: Option<string>,
    finishedAt: Option<string>,
    message: Option<string>)

  /** A measurement with its chart and table values added. */
  datatype TransformedMeasurement = TransformedMeasurement(measurement: Measurement, chartValue: Option<Cell>, tableValue: Cell)

  /** The series summary: whether every measurement charts, the lowest and highest
      charted numbers (the lowest starting at 0, the highest absent until one is seen). */
  datatype MeasurementInfo = MeasurementInfo(chartable: bool, min: real, max: Option<real>, measurements: seq<TransformedMeasurement>)

  /** The number a transformed value moves the bounds by: its chart value, when it can be
      charted and is a single number. */
  function BoundaryValue(tv: TransformedValue): Option<real> {
    if tv.canChart && tv.chartValue.Some? && tv.chartValue.value.Scalar? && tv.chartValue.value.shown.ShownNumber? then
      Some(tv.chartValue.value.shown.n)
    else None
  }

  /** One step of the `reduce`: fold one measurement into the summary so far. It fails
      exactly when the measurement's value throws; otherwise the earlier measurements
      are kept with the new one after them, the series stays chartable only if the new
      value is, and the bounds only widen, to take in the new value's number. */
  function Step(host: Host, keys: seq<string>, acc: MeasurementInfo, m: Measurement): (r: Result<MeasurementInfo, DecodeError>)
    ensures r.Ok? <==> TransformValue(host, keys, m.value).Ok?
    ensures r.Ok? ==>
              var tv := TransformValue(host, keys, m.value).value;
              && r.value.measurements == acc.measurements + [TransformedMeasurement(m, tv.chartValue, tv.tableValue)]
              && (r.value.chartable <==> acc.chartable && tv.canChart)
              && r.value.min <= acc.min
              && (acc.max.Some? ==> r.value.max.Some? && acc.max.value <= r.value.max.value)
              && (BoundaryValue(tv).Some? ==>
                    r.value.min <= BoundaryValue(tv).value && r.value.max.Some? && BoundaryValue(tv).value <= r.value.max.value)
  {
    var tv :- TransformValue(host, keys, m.value);
    var b := BoundaryValue(tv);
    Ok(MeasurementInfo(
      acc.chartable && tv.canChart,
      if b.Some? && b.value < acc.min then b.value else acc.min,
      if b.None? then acc.max
      else if b.value > acc.max.GetOr(0.0) then Some(b.value) else Some(acc.max.GetOr(0.0)),
      acc.measurements + [TransformedMeasurement(m, tv.chartValue, tv.tableValue)]))
  }

  /** The `reduce` seed. */
  const Seed := MeasurementInfo(true, 0.0, None, [])

  /** The transformed value of measurement `i`, when it decodes. */
  function ValueAt(host: Host, keys: seq<string>, ms: seq<Measurement>, i: int): Result<TransformedValue, DecodeError>
    requires 0 <= i < |ms|
  {
    TransformValue(host, keys, ms[i].value)
  }

  /** Measurement `i` contributes the number `x` to the bounds. */
  predicate ContributesAt(host: Host, keys: seq<string>, ms: seq<Measurement>, i: int, x: real) {
    0 <= i < |ms| && ValueAt(host, keys, ms, i).Ok? && BoundaryValue(ValueAt(host, keys, ms, i).value) == Some(x)
  }

  /** The left fold over the measurements; the first value that throws aborts it. */
  function Fold(host: Host, keys: seq<string>, ms: seq<Measurement>): (r: Result<MeasurementInfo, DecodeError>)
    ensures r.Ok? ==> |r.value.measurements| == |ms|
  {
    if ms == [] then Ok(Seed)
    else
      var acc :- Fold(host, keys, ms[..|ms| - 1]);
      Step(host, keys, acc, ms[|ms| - 1])
  }

  /** The fold fails exactly when some measurement value throws. */
  lemma {:induction false} FoldDecodes(host: Host, keys: seq<string>, ms: seq<Measurement>)
    ensures Fold(host, keys, ms).Ok? <==> forall i :: 0 <= i < |ms| ==> ValueAt(host, keys, ms, i).Ok?
  {
    if ms != [] {
      var init := ms[..|ms| - 1];
      var last := |ms| - 1;
      FoldDecodes(host, keys, init);
      assert forall i :: 0 <= i < |init| ==> ValueAt(host, keys, init, i) == ValueAt(host, keys, ms, i);
      if Fold(host, keys, init).Ok? {
        var acc := Fold(host, keys, init).value;
        assert Fold(host, keys, ms) == Step(host, keys, acc, ms[last]);
        assert Step(host, keys, acc, ms[last]).Ok? <==> ValueAt(host, keys, ms, last).Ok?;
      }
    }
  }

  /** The output keeps the input's order, each measurement carrying its own chart and
      table values, and the series charts exactly when every measurement does. */
  lemma {:induction false} FoldMeasurements(host: Host, keys: seq<string>, ms: seq<Measurement>)
    requires Fold(host, keys, ms).Ok?
    ensures var info := Fold(host, keys, ms).value;
            && (forall i :: 0 <= i < |ms| ==>
                  ValueAt(host, keys, ms, i).Ok? &&
                  info.measurements[i] ==
                    TransformedMeasurement(ms[i], ValueAt(host, keys, ms, i).value.chartValue, ValueAt(host, keys, ms, i).value.tableValue))
            && (info.chartable <==> forall i :: 0 <= i < |ms| ==> ValueAt(host, keys, ms, i).Ok? && ValueAt(host, keys, ms, i).value.canChart)
  {
    if ms != [] {
      var init := ms[..|ms| - 1];
      FoldMeasurements(host, keys, init);
      FoldDecodes(host, keys, ms);
      assert forall i :: 0 <= i < |init| ==> ValueAt(host, keys, init, i) == ValueAt(host, keys, ms, i);
    }
  }

  /** The lowest bound is at most 0 and at most every contributed number, and is 0 or
      one of them; the highest bound is absent exactly when nothing contributed, and is
      otherwise at least 0 and every contributed number, and is 0 or one of them. */
  lemma {:induction false} FoldBounds(host: Host, keys: seq<string>, ms: seq<Measurement>)
    requires Fold(host, keys, ms).Ok?
    ensures var info := Fold(host, keys, ms).value;
            && info.min <= 0.0
            && (forall i, x :: ContributesAt(host, keys, ms, i, x) ==> info.min <= x)
            && (info.min == 0.0 || exists i :: ContributesAt(host, keys, ms, i, info.min))
            && (info.max.None? <==> forall i, x :: !ContributesAt(host, keys, ms, i, x))
            && (info.max.Some? ==> info.max.value >= 0.0)
            && (info.max.Some? ==> forall i, x :: ContributesAt(host, keys, ms, i, x) ==> x <= info.max.value)
            && (info.max.Some? ==> info.max.value == 0.0 || exists i :: ContributesAt(host, keys, ms, i, info.max.value))
  {
    if ms != [] {
      var init := ms[..|ms| - 1];
      var last := |ms| - 1;
      FoldBounds(host, keys, init);
      var acc := Fold(host, keys, init).value;
      var tv := ValueAt(host, keys, ms, last).value;
      var b := BoundaryValue(tv);
      var info := Fold(host, keys, ms).value;
      assert info == Step(host, keys, acc, ms[last]).value;
      assert forall i :: 0 <= i < |init| ==> ValueAt(host, keys, init, i) == ValueAt(host, keys, ms, i);
      assert forall i, x :: ContributesAt(host, keys, init, i, x) ==> ContributesAt(host, keys, ms, i, x);
      assert forall i, x :: ContributesAt(host, keys, ms, i, x) && i != last ==> ContributesAt(host, keys, init, i, x);
      if b.Some? {
        assert ContributesAt(host, keys, ms, last, b.value);
      } else {
        assert forall x :: !ContributesAt(host, keys, ms, last, x);
      }
      if info.min != 0.0 && info.min == acc.min {
        var j :| ContributesAt(host, keys, init, j, acc.min);
        assert ContributesAt(host, keys, ms, j, info.min);
      }
      if info.max.Some? && info.max.value != 0.0 && info.max == acc.max {
        var j :| ContributesAt(host, keys, init, j, acc.max.value);
        assert ContributesAt(host, keys, ms, j, info.max.value);
      }
    }
  }

  /** `transformMeasurements`: no measurements give an unchartable empty summary;
      otherwise the fold from the seed. */
  function TransformMeasurements(host: Host, keys: seq<string>, ms: Option<seq<Measurement>>): (r: Result<MeasurementInfo, DecodeError>)
    ensures ms.None? || ms == Some([]) ==> r == Ok(MeasurementInfo(false, 0.0, None, []))
  {
    if ms.None? || ms.value == [] then Ok(MeasurementInfo(false, 0.0, None, []))
    else Fold(host, keys, ms.value)
  }

  /** Transforming the measurements fails exactly when one of their values throws. */
  lemma MeasurementsFail(host: Host, keys: seq<string>, ms: Option<seq<Measurement>>)
    ensures TransformMeasurements(host, keys, ms).Err? <==>
              ms.Some? && exists i :: 0 <= i < |ms.value| && ValueAt(host, keys, ms.value, i).Err?
  {
    if ms.Some? && ms.value != [] {
      FoldDecodes(host, keys, ms.value);
      if Fold(host, keys, ms.value).Err? {
        var i :| 0 <= i < |ms.value| && !ValueAt(host, keys, ms.value, i).Ok?;
        assert ValueAt(host, keys, ms.value, i).Err?;
      }
    }
  }

  /** The bounds are 0 or charted numbers, so they too have at most two decimals. */
  lemma BoundsRounded(host: Host, keys: seq<string>, ms: seq<Measurement>)
    requires Fold(host, keys, ms).Ok?
    ensures TwoDecimal(Fold(host, keys, ms).value.min)
    ensures Fold(host, keys, ms).value.max.Some? ==> TwoDecimal(Fold(host, keys, ms).value.max.value)
  {
    var info := Fold(host, keys, ms).value;
    FoldBounds(host, keys, ms);
    if info.min != 0.0 {
      var j :| ContributesAt(host, keys, ms, j, info.min);
      ChartValuesRounded(host, keys, ms[j].value);
    }
    if info.max.Some? && info.max.value != 0.0 {
      var j :| ContributesAt(host, keys, ms, j, info.max.value);
      ChartValuesRounded(host, keys, ms[j].value);
    }
  }

  /** Whatever the measurements, a successful transformation returns one transformed
      measurement per input, in input order. */
  lemma TransformMeasurementsKeepsOrder(host: Host, keys: seq<string>, ms: seq<Measurement>)
    requires TransformMeasurements(host, keys, Some(ms)).Ok?
    ensures var out := TransformMeasurements(host, keys, Some(ms)).value.measurements;
            |out| == |ms| && forall i :: 0 <= i < |ms| ==> out[i].measurement == ms[i]
  {
    if ms != [] {
      FoldMeasurements(host, keys, ms);
    }
  }
}
