/** `conditionDetails`: the label, numeric thresholds and measurement keys that a
    failure or success condition yields for charting. */
module Conditions {
  import opened Wrappers
  import opened JsText
  import opened Interpolation
  import opened Providers

  /** What one chartable subcondition adds: its threshold and, when the provider names
      one, the key of the compared value. */
  datatype Extracted = Extracted(threshold: real, key: Option<string>)

  /** The result of `conditionDetails`; a `None` label is `null`. */
  datatype ConditionInfo = ConditionInfo(labelText: Option<string>, thresholds: seq<real>, conditionKeys: seq<string>)

  /** ` && ` or ` || ` starts at position `i`. */
  predicate OperatorAt(s: string, i: nat) {
    i + 4 <= |s| && (s[i..i + 4] == " && " || s[i..i + 4] == " || ")
  }

  /** `s.split(/ && | \|\| /)`: a left-to-right scan cutting at each operator. */
  function SplitConditions(s: string): (r: seq<string>)
    ensures |r| >= 1
    ensures |r[0]| <= |s| && r[0] == s[..|r[0]|]
    decreases |s|
  {
    if OperatorAt(s, 0) then [""] + SplitConditions(s[4..])
    else if s == [] then [""]
    else
      var rest := SplitConditions(s[1..]);
      [[s[0]] + rest[0]] + rest[1..]
  }

  /** No subcondition holds a logical operator: the split cuts at every one. */
  lemma {:induction false} SplitConditionsOperatorFree(s: string)
    ensures forall i: nat, k: nat :: i < |SplitConditions(s)| ==> !OperatorAt(SplitConditions(s)[i], k)
    decreases |s|
  {
    if OperatorAt(s, 0) {
      SplitConditionsOperatorFree(s[4..]);
      assert SplitConditions(s) == [""] + SplitConditions(s[4..]);
    } else if s != [] {
      var rest := SplitConditions(s[1..]);
      SplitConditionsOperatorFree(s[1..]);
      var first := [s[0]] + rest[0];
      forall k: nat | OperatorAt(first, k)
        ensures false
      {
        if k > 0 {
          assert first[k..k + 4] == rest[0][k - 1..k + 3];
          assert OperatorAt(rest[0], k - 1);
        }
      }
      assert SplitConditions(s) == [first] + rest[1..];
    }
  }

  /** A condition with no logical operator is a single subcondition. */
  lemma {:induction false} SplitConditionsSingle(s: string)
    requires forall i: nat :: !OperatorAt(s, i)
    ensures SplitConditions(s) == [s]
  {
    if s != [] {
      forall i: nat
        ensures !OperatorAt(s[1..], i)
      {
        assert !OperatorAt(s, i + 1);
        if i + 4 <= |s[1..]| {
          assert s[1..][i..i + 4] == s[i + 1..i + 5];
        }
      }
      SplitConditionsSingle(s[1..]);
      assert [s[0]] + s[1..] == s;
    }
  }

  /** A first subcondition followed by an operator is cut off whole, provided no
      operator starts inside it. */
  lemma {:induction false} SplitConditionsFirst(p: string, op: string, rest: string)
    requires op == " && " || op == " || "
    requires forall i: nat :: i < |p| ==> !OperatorAt(p + op + rest, i)
    ensures SplitConditions(p + op + rest) == [p] + SplitConditions(rest)
  {
    var s := p + op + rest;
    if p == [] {
      assert s == op + rest && s[..4] == op;
      assert s[4..] == rest;
    } else {
      assert s[1..] == p[1..] + op + rest;
      forall i: nat | i < |p[1..]|
        ensures !OperatorAt(p[1..] + op + rest, i)
      {
        assert !OperatorAt(s, i + 1);
        if i + 4 <= |s[1..]| {
          assert s[1..][i..i + 4] == s[i + 1..i + 5];
        }
      }
      SplitConditionsFirst(p[1..], op, rest);
      assert [p[0]] + p[1..] == p;
    }
  }

  /** What one subcondition contributes: it must be exactly three space-separated parts,
      an accessor the provider supports, a comparison containing `<` or `>`, and a
      threshold literal that reads as a finite number. */
  function Extract(p: Provider, sub: string): (r: Option<Extracted>)
    ensures var parts := Split(sub, ' ');
            r.Some? <==>
              && |parts| == 3
              && AccessorSupport(p, Trim(parts[0])).isFormatSupported
              && ('<' in parts[1] || '>' in parts[1])
              && ParseDecimal(parts[2]).Some?
  {
    var parts := Split(sub, ' ');
    if |parts| != 3 then None
    else
      var support := AccessorSupport(p, Trim(parts[0]));
      var value := ParseDecimal(parts[2]);
      if support.isFormatSupported && ('<' in parts[1] || '>' in parts[1]) && value.Some? then
        Some(Extracted(value.value, support.conditionKey))
      else None
  }

  /** A contributing subcondition's threshold is the value of its literal, and its key
      is the one the provider gives its accessor. */
  lemma ExtractValue(p: Provider, sub: string)
    requires Extract(p, sub).Some?
    ensures var parts := Split(sub, ' ');
            && |parts| == 3
            && ParseDecimal(parts[2]) == Some(Extract(p, sub).value.threshold)
            && Extract(p, sub).value.key == AccessorSupport(p, Trim(parts[0])).conditionKey
  {
  }

  /** The keys a contributing subcondition yields, provider by provider; providers
      without chartable accessors never contribute. */
  lemma ExtractKey(p: Provider, sub: string)
    requires Extract(p, sub).Some?
    ensures p.Prometheus? || p.Graphite? || p.Influxdb? ==> Extract(p, sub).value.key == Some("0")
    ensures p.Datadog? || p.Wavefront? ==> Extract(p, sub).value.key == None
    ensures p.NewRelic? ==> Extract(p, sub).value.key.Some?
    ensures !(p.CloudWatch? || p.Skywalking? || p.Unsupported?)
  {
    var parts := Split(sub, ' ');
    TrimKeeps(parts[0], ' ');
    SupportedKey(p, Trim(parts[0]));
  }

  /** What each subcondition contributes, in order. */
  function Extractions(p: Provider, subs: seq<string>): (es: seq<Option<Extracted>>)
    ensures |es| == |subs| && forall i :: 0 <= i < |subs| ==> es[i] == Extract(p, subs[i])
  {
    if subs == [] then []
    else Extractions(p, subs[..|subs| - 1]) + [Extract(p, subs[|subs| - 1])]
  }

  /** The thresholds and keys the loop pushes, one contribution after another. */
  function Gather(es: seq<Option<Extracted>>): (r: (seq<real>, seq<string>))
    ensures |r.1| <= |r.0| <= |es|
  {
    if es == [] then ([], [])
    else
      var prev := Gather(es[..|es| - 1]);
      var e := es[|es| - 1];
      if e.None? then prev
      else (prev.0 + [e.value.threshold], if e.value.key.Some? then prev.1 + [e.value.key.value] else prev.1)
  }

  /** Gathering one more contribution. */
  lemma GatherStep(es: seq<Option<Extracted>>, i: nat)
    requires i < |es|
    ensures var prev := Gather(es[..i]);
            Gather(es[..i + 1]) ==
              if es[i].None? then prev
              else (prev.0 + [es[i].value.threshold], if es[i].value.key.Some? then prev.1 + [es[i].value.key.value] else prev.1)
  {
    assert es[..i + 1][..i] == es[..i];
  }

  /** The thresholds and keys of the subconditions. */
  function Collect(p: Provider, subs: seq<string>): (seq<real>, seq<string>) {
    Gather(Extractions(p, subs))
  }

  /** `conditionDetails`: no label, thresholds or keys without a non-empty condition and
      a provider; otherwise the interpolated condition is the label and its chartable
      subconditions give the thresholds and keys. */
  function ConditionInfoOf(condition: Option<string>, args: seq<Arg>, provider: Option<Provider>): (r: ConditionInfo)
    ensures r.labelText.None? <==> condition.None? || condition == Some("") || provider.None?
    ensures r.labelText.Some? ==> r.labelText == Interpolate(condition, Some(args))
    ensures r.labelText.None? ==> r.thresholds == [] && r.conditionKeys == []
    ensures |r.conditionKeys| <= |r.thresholds|
  {
    if condition.None? || condition.value == "" || provider.None? then ConditionInfo(None, [], [])
    else
      var text := Interpolate(condition, Some(args)).value;
      var (thresholds, keys) := Collect(provider.value, SplitConditions(text));
      ConditionInfo(Some(text), thresholds, keys)
  }

  method ConditionDetails(condition: Option<string>, args: seq<Arg>, provider: Option<Provider>) returns (info: ConditionInfo)
    ensures info == ConditionInfoOf(condition, args, provider)
  {
    if condition.None? || condition.value == "" || provider.None? {
      return ConditionInfo(None, [], []);
    }
    var interpolated := Interpolate(condition, Some(args)).value;
    var subconditions := SplitConditions(interpolated);
    ghost var es := Extractions(provider.value, subconditions);
    var thresholds: seq<real> := [];
    var conditionKeys: seq<string> := [];
    var i := 0;
    while i < |subconditions|
      invariant 0 <= i <= |subconditions|
      invariant (thresholds, conditionKeys) == Gather(es[..i])
    {
      GatherStep(es, i);
      assert es[i] == Extract(provider.value, subconditions[i]);
      var parts := Split(subconditions[i], ' ');
      if |parts| == 3 {
        var support := AccessorSupport(provider.value, Trim(parts[0]));
        var underOver := '<' in parts[1] || '>' in parts[1];
        var value := ParseDecimal(parts[2]);
        if support.isFormatSupported && underOver && value.Some? {
          assert es[i] == Some(Extracted(value.value, support.conditionKey));
          if support.conditionKey.Some? {
            conditionKeys := conditionKeys + [support.conditionKey.value];
          }
          thresholds := thresholds + [value.value];
        } else {
          assert es[i].None?;
        }
      } else {
        assert es[i].None?;
      }
      i := i + 1;
    }
    assert es[..i] == es;
    return ConditionInfo(Some(interpolated), thresholds, conditionKeys);
  }

  /** Subcondition `j` contributes threshold `t`. */
  predicate ThresholdAt(p: Provider, subs: seq<string>, j: int, t: real) {
    0 <= j < |subs| && Extract(p, subs[j]).Some? && Extract(p, subs[j]).value.threshold == t
  }

  /** A contribution of `es` at position `j` with threshold `t`. */
  predicate GatheredAt(es: seq<Option<Extracted>>, j: int, t: real) {
    0 <= j < |es| && es[j].Some? && es[j].value.threshold == t
  }

  lemma {:induction false} GatherThresholds(es: seq<Option<Extracted>>)
    ensures forall t :: t in Gather(es).0 <==> exists j :: GatheredAt(es, j, t)
  {
    if es != [] {
      var init := es[..|es| - 1];
      var last := |es| - 1;
      GatherThresholds(init);
      forall t | t in Gather(es).0
        ensures exists j :: GatheredAt(es, j, t)
      {
        if t in Gather(init).0 {
          var j :| GatheredAt(init, j, t);
          assert GatheredAt(es, j, t);
        } else {
          assert GatheredAt(es, last, t);
        }
      }
      forall t, j | GatheredAt(es, j, t)
        ensures t in Gather(es).0
      {
        if j < last {
          assert GatheredAt(init, j, t);
        }
      }
    }
  }

  /** Every threshold comes from a contributing subcondition, and every contributing
      subcondition's threshold is among them. */
  lemma CollectThresholds(p: Provider, subs: seq<string>)
    ensures forall t :: t in Collect(p, subs).0 <==> exists j :: ThresholdAt(p, subs, j, t)
  {
    var es := Extractions(p, subs);
    GatherThresholds(es);
    assert forall j, t :: GatheredAt(es, j, t) <==> ThresholdAt(p, subs, j, t);
  }

  /** Gathering a concatenation gathers each part in turn. */
  lemma {:induction false} GatherConcat(a: seq<Option<Extracted>>, b: seq<Option<Extracted>>)
    ensures Gather(a + b).0 == Gather(a).0 + Gather(b).0
    ensures Gather(a + b).1 == Gather(a).1 + Gather(b).1
  {
    if b == [] {
      assert a + b == a;
    } else {
      var init := b[..|b| - 1];
      GatherConcat(a, init);
      assert (a + b)[..|a + b| - 1] == a + init;
      assert (a + b)[|a + b| - 1] == b[|b| - 1];
    }
  }

  /** Subconditions contribute in their order: the thresholds and keys of a sequence of
      subconditions are those of its first part followed by those of the rest. */
  lemma CollectConcat(p: Provider, a: seq<string>, b: seq<string>)
    ensures Collect(p, a + b).0 == Collect(p, a).0 + Collect(p, b).0
    ensures Collect(p, a + b).1 == Collect(p, a).1 + Collect(p, b).1
  {
    ExtractionsConcat(p, a, b);
    GatherConcat(Extractions(p, a), Extractions(p, b));
  }

  lemma {:induction false} ExtractionsConcat(p: Provider, a: seq<string>, b: seq<string>)
    ensures Extractions(p, a + b) == Extractions(p, a) + Extractions(p, b)
  {
    if b == [] {
      assert a + b == a;
    } else {
      var init := b[..|b| - 1];
      ExtractionsConcat(p, a, init);
      assert (a + b)[..|a + b| - 1] == a + init;
      assert (a + b)[|a + b| - 1] == b[|b| - 1];
    }
  }


  /** One subcondition pushes its threshold, and its key when it has one, or nothing. */
  lemma CollectOne(p: Provider, sub: string)
    ensures Extract(p, sub).None? ==> Collect(p, [sub]) == ([], [])
    ensures Extract(p, sub).Some? ==> Collect(p, [sub]).0 == [Extract(p, sub).value.threshold]
    ensures Extract(p, sub).Some? ==>
              Collect(p, [sub]).1 == if Extract(p, sub).value.key.Some? then [Extract(p, sub).value.key.value] else []
  {
    assert Extractions(p, [sub]) == [Extract(p, sub)];
    assert Extractions(p, [sub])[..0] == [];
  }

  /** How the keys of the contributions relate to their thresholds. */
  datatype KeyKind = AlwaysZero | AlwaysNamed | NeverNamed | NeverContributes

  predicate KeyFits(e: Option<Extracted>, kind: KeyKind) {
    e.Some? ==>
      match kind
      case AlwaysZero => e.value.key == Some("0")
      case AlwaysNamed => e.value.key.Some?
      case NeverNamed => e.value.key.None?
      case NeverContributes => false
  }

  lemma {:induction false} GatherKeys(es: seq<Option<Extracted>>, kind: KeyKind)
    requires forall j :: 0 <= j < |es| ==> KeyFits(es[j], kind)
    ensures var (thresholds, keys) := Gather(es);
            && (kind == AlwaysZero ==> keys == seq(|thresholds|, _ => "0"))
            && (kind == AlwaysNamed ==> |keys| == |thresholds|)
            && (kind == NeverNamed ==> keys == [])
            && (kind == NeverContributes ==> thresholds == [])
  {
    if es != [] {
      var init := es[..|es| - 1];
      assert forall j :: 0 <= j < |init| ==> init[j] == es[j];
      GatherKeys(init, kind);
      assert KeyFits(es[|es| - 1], kind);
    }
  }

  /** The key kind of each provider. */
  function KindOf(p: Provider): KeyKind {
    if p.Prometheus? || p.Graphite? || p.Influxdb? then AlwaysZero
    else if p.NewRelic? then AlwaysNamed
    else if p.Datadog? || p.Wavefront? then NeverNamed
    else NeverContributes
  }

  /** Keys provider by provider: `"0"` once per threshold for the `result[0]` providers,
      one per threshold for newRelic, none for datadog and wavefront, and neither keys
      nor thresholds for providers without chartable accessors. */
  lemma CollectKeys(p: Provider, subs: seq<string>)
    ensures var (thresholds, keys) := Collect(p, subs);
            && (p.Prometheus? || p.Graphite? || p.Influxdb? ==> keys == seq(|thresholds|, _ => "0"))
            && (p.NewRelic? ==> |keys| == |thresholds|)
            && (p.Datadog? || p.Wavefront? ==> keys == [])
            && (p.CloudWatch? || p.Skywalking? || p.Unsupported? ==> thresholds == [])
  {
    var es := Extractions(p, subs);
    forall j | 0 <= j < |es|
      ensures KeyFits(es[j], KindOf(p))
    {
      if es[j].Some? {
        ExtractKey(p, subs[j]);
      }
    }
    GatherKeys(es, KindOf(p));
  }

  /** Without arguments the label is the condition itself. */
  lemma LabelWithoutArgs(condition: string, provider: Provider)
    requires condition != ""
    ensures ConditionInfoOf(Some(condition), [], Some(provider)).labelText == Some(condition)
  {
  }

  /** A condition without logical operators yields at most one threshold. */
  lemma SingleSubconditionThreshold(condition: string, args: seq<Arg>, provider: Provider)
    requires condition != ""
    requires forall i: nat :: !OperatorAt(Interpolate(Some(condition), Some(args)).value, i)
    ensures |ConditionInfoOf(Some(condition), args, Some(provider)).thresholds| <= 1
  {
    SplitConditionsSingle(Interpolate(Some(condition), Some(args)).value);
  }

  /** Text without `&` and `|` holds no operator. */
  lemma NoOperatorWithout(s: string)
    requires '&' !in s && '|' !in s
    ensures forall i: nat :: !OperatorAt(s, i)
  {
    forall i: nat | i + 4 <= |s|
      ensures !OperatorAt(s, i)
    {
      assert s[i..i + 4][1] == s[i + 1];
    }
  }

  /** No operator starts inside a first subcondition free of `&` and `|` that does not
      end in a space. */
  lemma NoOperatorInside(p: string, op: string, rest: string)
    requires '&' !in p && '|' !in p && (p == [] || p[|p| - 1] != ' ')
    ensures forall i: nat :: i < |p| ==> !OperatorAt(p + op + rest, i)
  {
    var s := p + op + rest;
    forall i: nat | i < |p| && i + 4 <= |s|
      ensures !OperatorAt(s, i)
    {
      if i + 1 < |p| {
        assert s[i..i + 4][1] == p[i + 1];
      } else {
        assert s[i..i + 4][0] == p[|p| - 1];
      }
    }
  }

  lemma ParseDigit(digit: char)
    requires IsDecimalDigit(digit)
    ensures ParseDecimal([digit]) == Some(DigitValue(digit) as real)
  {
    var d := [digit];
    assert Trim(d) == d by {
      assert !IsWhitespace(digit);
      assert TrimStart(d) == d;
    }
    assert SignOf(d) == (false, d);
    assert DigitPrefix(d, 10) == d by {
      assert DigitPrefix(d[1..], 10) == [];
    }
    assert d[|d|..] == [];
    assert DigitsValue(d, 10) == DigitValue(digit) by {
      assert d[..0] == [];
    }
    assert DigitsValue([], 10) == 0;
    assert ExponentOf([]) == Some(0);
    assert Scale(DigitValue(digit) as real + 0 as real / Pow10(0), 0) == DigitValue(digit) as real;
  }

  lemma SplitComparison(accessor: string, op: string, digit: char)
    requires ' ' !in accessor && ' ' !in op && digit != ' '
    ensures Split(Comparison(accessor, op, digit), ' ') == [accessor, op, [digit]]
  {
    var sub := accessor + " " + op + " " + [digit];
    assert sub == accessor + [' '] + (op + [' '] + [digit]);
    SplitPrefix(accessor, op + [' '] + [digit], ' ');
    SplitPrefix(op, [digit], ' ');
    SplitFree([digit], ' ');
  }

  /** A subcondition already split into three parts. */
  lemma ExtractOfParts(p: Provider, sub: string, parts: seq<string>, t: real)
    requires Split(sub, ' ') == parts && |parts| == 3
    requires ParseDecimal(parts[2]) == Some(t)
    requires AccessorSupport(p, Trim(parts[0])).isFormatSupported && ('<' in parts[1] || '>' in parts[1])
    ensures Extract(p, sub) == Some(Extracted(t, AccessorSupport(p, Trim(parts[0])).conditionKey))
  {
  }

  lemma TrimPlain(s: string)
    requires |s| > 0 && !IsWhitespace(s[0]) && !IsWhitespace(s[|s| - 1])
    ensures Trim(s) == s
  {
    assert TrimStart(s) == s;
  }

  /** One comparison `accessor op literal` read by `Extract`, for an accessor without
      spaces and a one-digit literal. */
  lemma ExtractComparison(p: Provider, sub: string, parts: seq<string>, digit: char)
    requires Split(sub, ' ') == parts && |parts| == 3 && parts[2] == [digit]
    requires |parts[0]| > 0 && !IsWhitespace(parts[0][0]) && !IsWhitespace(parts[0][|parts[0]| - 1])
    requires '<' in parts[1] || '>' in parts[1]
    requires IsDecimalDigit(digit)
    requires AccessorSupport(p, parts[0]).isFormatSupported
    ensures Extract(p, sub) == Some(Extracted(DigitValue(digit) as real, AccessorSupport(p, parts[0]).conditionKey))
  {
    assert Trim(parts[0]) == parts[0] by {
      TrimPlain(parts[0]);
    }
    assert ParseDecimal(parts[2]) == Some(DigitValue(digit) as real) by {
      ParseDigit(digit);
    }
    ExtractOfParts(p, sub, parts, DigitValue(digit) as real);
  }

  /** The shape `accessor op digit` of one simple comparison. */
  function Comparison(accessor: string, op: string, digit: char): string {
    accessor + " " + op + " " + [digit]
  }

  predicate PlainAccessor(accessor: string) {
    && |accessor| > 0 && ' ' !in accessor && '&' !in accessor && '|' !in accessor
    && !IsWhitespace(accessor[0]) && !IsWhitespace(accessor[|accessor| - 1])
  }

  predicate PlainOperator(op: string) {
    ' ' !in op && '&' !in op && '|' !in op && ('<' in op || '>' in op)
  }

  /** Two contributions sharing a key are gathered in order. */
  lemma GatherPair(t1: real, t2: real, key: Option<string>)
    ensures Gather([Some(Extracted(t1, key)), Some(Extracted(t2, key))]) ==
              ([t1, t2], if key.Some? then [key.value, key.value] else [])
  {
    var e1, e2 := Some(Extracted(t1, key)), Some(Extracted(t2, key));
    var one, two := [e1], [e1, e2];
    assert one[..0] == [] && Gather([]) == ([], []);
    assert Gather(one).0 == [t1];
    assert Gather(one).1 == if key.Some? then [key.value] else [];
    assert two[..1] == one && two[1] == e2;
    assert Gather(two).0 == [t1, t2];
    assert Gather(two).1 == if key.Some? then [key.value, key.value] else [];
  }

  lemma ExtractionsPair(p: Provider, a: string, b: string)
    ensures Extractions(p, [a, b]) == [Extract(p, a), Extract(p, b)]
  {
  }

  /** What one comparison `accessor op digit` contributes. */
  lemma ComparisonExtract(p: Provider, accessor: string, op: string, digit: char)
    requires PlainAccessor(accessor) && AccessorSupport(p, accessor).isFormatSupported
    requires PlainOperator(op) && IsDecimalDigit(digit)
    ensures Extract(p, Comparison(accessor, op, digit)) ==
              Some(Extracted(DigitValue(digit) as real, AccessorSupport(p, accessor).conditionKey))
  {
    SplitComparison(accessor, op, digit);
    ExtractComparison(p, Comparison(accessor, op, digit), [accessor, op, [digit]], digit);
  }

  /** Two comparisons of one supported accessor contribute both thresholds, in order. */
  lemma CollectComparisons(p: Provider, accessor: string, op1: string, d1: char, op2: string, d2: char)
    requires PlainAccessor(accessor) && AccessorSupport(p, accessor).isFormatSupported
    requires PlainOperator(op1) && PlainOperator(op2)
    requires IsDecimalDigit(d1) && IsDecimalDigit(d2)
    ensures var key := AccessorSupport(p, accessor).conditionKey;
            Collect(p, [Comparison(accessor, op1, d1), Comparison(accessor, op2, d2)]) ==
              ([DigitValue(d1) as real, DigitValue(d2) as real], if key.Some? then [key.value, key.value] else [])
  {
    var key := AccessorSupport(p, accessor).conditionKey;
    var a, b := Comparison(accessor, op1, d1), Comparison(accessor, op2, d2);
    ComparisonExtract(p, accessor, op1, d1);
    ComparisonExtract(p, accessor, op2, d2);
    ExtractionsPair(p, a, b);
    GatherPair(DigitValue(d1) as real, DigitValue(d2) as real, key);
  }

  /** Two comparisons of one supported accessor joined by ` && ` or ` || `, without
      arguments (for instance `result[0] < 5 && result[0] > 1` for prometheus): the
      label is the condition, both thresholds are read in order, and the accessor's key
      is pushed once per threshold, repeats included. */
  lemma TwoComparisons(p: Provider, accessor: string, op1: string, d1: char, joiner: string, op2: string, d2: char)
    requires PlainAccessor(accessor) && AccessorSupport(p, accessor).isFormatSupported
    requires PlainOperator(op1) && PlainOperator(op2)
    requires IsDecimalDigit(d1) && IsDecimalDigit(d2)
    requires joiner == " && " || joiner == " || "
    ensures var condition := Comparison(accessor, op1, d1) + joiner + Comparison(accessor, op2, d2);
            var key := AccessorSupport(p, accessor).conditionKey;
            ConditionInfoOf(Some(condition), [], Some(p)) ==
              ConditionInfo(Some(condition), [DigitValue(d1) as real, DigitValue(d2) as real],
                            if key.Some? then [key.value, key.value] else [])
  {
    var first, second := Comparison(accessor, op1, d1), Comparison(accessor, op2, d2);
    var condition := first + joiner + second;
    assert SplitConditions(condition) == [first, second] by {
      assert '&' !in first && '|' !in first && first[|first| - 1] == d1;
      assert '&' !in second && '|' !in second;
      NoOperatorInside(first, joiner, second);
      SplitConditionsFirst(first, joiner, second);
      NoOperatorWithout(second);
      SplitConditionsSingle(second);
    }
    CollectComparisons(p, accessor, op1, d1, op2, d2);
    assert condition != "" && Interpolate(Some(condition), Some([])) == Some(condition);
  }
}
