/** `metricSubstatus` and `metricStatusLabel`: the secondary flag and the descriptive
    label of a metric, from its phase and its measurement counts. */
module StatusLabels {
  import opened Wrappers

  /** The phase of an analysis or metric run; `Other` is any phase text outside the
      enumeration. */
  datatype Phase = Pending | Running | Successful | Failed | Inconclusive | Error | Unknown | Other(text: string)

  /** The two severities of the secondary flag. */
  datatype FunctionalStatus = FunctionalError | FunctionalWarning

  /** `metricSubstatus`: a running or successful metric is flagged as an error when a
      measurement failed, otherwise as a warning when one errored or was inconclusive;
      every other phase carries no flag. */
  function MetricSubstatus(phase: Phase, failures: int, errors: int, inconclusives: int): (r: Option<FunctionalStatus>)
    ensures r == Some(FunctionalError) <==> (phase.Running? || phase.Successful?) && failures > 0
    ensures r == Some(FunctionalWarning) <==>
              (phase.Running? || phase.Successful?) && failures <= 0 && (errors > 0 || inconclusives > 0)
  {
    match phase
    case Running | Successful =>
      if failures > 0 then Some(FunctionalError)
      else if errors > 0 || inconclusives > 0 then Some(FunctionalWarning)
      else None
    case _ => None
  }

  /** The qualifiers a successful metric's label can carry. */
  datatype Qualifier = NoIssues | MeasurementFailures | MeasurementErrors | InconclusiveMeasurements | MultipleIssues

  /** The qualifier for the kinds of problem present, by the order of the label's cases. */
  function QualifierOf(hasFailures: bool, hasErrors: bool, hasInconclusives: bool): Qualifier {
    if !hasFailures && !hasErrors && !hasInconclusives then NoIssues
    else if hasFailures && !hasErrors && !hasInconclusives then MeasurementFailures
    else if !hasFailures && hasErrors && !hasInconclusives then MeasurementErrors
    else if !hasFailures && !hasErrors && hasInconclusives then InconclusiveMeasurements
    else MultipleIssues
  }

  function QualifierText(q: Qualifier): string {
    match q
    case NoIssues => ""
    case MeasurementFailures => "with measurement failures"
    case MeasurementErrors => "with measurement errors"
    case InconclusiveMeasurements => "with inconclusive measurements"
    case MultipleIssues => "with multiple issues"
  }

  /** `metricStatusLabel`; a successful label is `Analysis passed` followed by its
      qualifier, the space dropped when there is none. */
  function MetricStatusLabel(phase: Phase, failures: int, errors: int, inconclusives: int): (r: string)
    ensures r == "" <==> phase.Other?
    ensures phase.Successful? ==> |r| >= 15 && r[..15] == "Analysis passed"
  {
    match phase
    case Unknown => "Analysis status unknown"
    case Pending => "Analysis pending"
    case Running => "Analysis in progress"
    case Failed => "Analysis failed"
    case Inconclusive => "Analysis inconclusive"
    case Error => "Analysis errored"
    case Successful =>
      var qualifier := QualifierText(QualifierOf(failures > 0, errors > 0, inconclusives > 0));
      if qualifier == "" then "Analysis passed" else "Analysis passed " + qualifier
    case Other(_) => ""
  }

  /** How many of the three kinds of problem occurred. */
  function ProblemKinds(failures: int, errors: int, inconclusives: int): nat {
    (if failures > 0 then 1 else 0) + (if errors > 0 then 1 else 0) + (if inconclusives > 0 then 1 else 0)
  }

  /** A successful metric's qualifier names the single kind of problem it had, is
      `multiple issues` exactly when there were two or more kinds, and is absent when
      there were none. */
  lemma QualifierByProblems(failures: int, errors: int, inconclusives: int)
    ensures var q := QualifierOf(failures > 0, errors > 0, inconclusives > 0);
            var kinds := ProblemKinds(failures, errors, inconclusives);
            && (q == NoIssues <==> kinds == 0)
            && (q == MultipleIssues <==> kinds >= 2)
            && (q == MeasurementFailures <==> failures > 0 && kinds == 1)
            && (q == MeasurementErrors <==> errors > 0 && kinds == 1)
            && (q == InconclusiveMeasurements <==> inconclusives > 0 && kinds == 1)
  {
  }

  /** Different qualifiers give different successful labels, so the label tells which
      case applied; only the no-issue label is the bare `Analysis passed`. */
  lemma SuccessLabelsDistinct(f1: int, e1: int, i1: int, f2: int, e2: int, i2: int)
    ensures MetricStatusLabel(Successful, f1, e1, i1) == MetricStatusLabel(Successful, f2, e2, i2) <==>
            QualifierOf(f1 > 0, e1 > 0, i1 > 0) == QualifierOf(f2 > 0, e2 > 0, i2 > 0)
    ensures MetricStatusLabel(Successful, f1, e1, i1) == "Analysis passed" <==> ProblemKinds(f1, e1, i1) == 0
  {
    var q1, q2 := QualifierOf(f1 > 0, e1 > 0, i1 > 0), QualifierOf(f2 > 0, e2 > 0, i2 > 0);
    if q1 != q2 {
      var t1, t2 := QualifierText(q1), QualifierText(q2);
      var l1, l2 := MetricStatusLabel(Successful, f1, e1, i1), MetricStatusLabel(Successful, f2, e2, i2);
      if t1 == "" || t2 == "" {
        assert |l1| != |l2|;
      } else {
        assert l1[16..] == t1 && l2[16..] == t2;
        assert t1[5] != t2[5] || t1[17] != t2[17];
      }
    }
    QualifierByProblems(f1, e1, i1);
  }

  /** For a successful metric the flag and the label agree: no flag exactly when there
      is no qualifier, an error flag exactly when the qualifier is about failures alone
      or about several issues including failures. */
  lemma SuccessFlagAgreesWithQualifier(failures: int, errors: int, inconclusives: int)
    ensures var q := QualifierOf(failures > 0, errors > 0, inconclusives > 0);
            var flag := MetricSubstatus(Successful, failures, errors, inconclusives);
            && (flag.None? <==> q == NoIssues)
            && (flag == Some(FunctionalError) <==> q == MeasurementFailures || (q == MultipleIssues && failures > 0))
            && (flag == Some(FunctionalWarning) <==> q == MeasurementErrors || q == InconclusiveMeasurements || (q == MultipleIssues && failures <= 0))
  {
  }

  /** Every phase but `Other` has a non-empty label, only a successful metric's label
      says the analysis passed, and the flag is only ever raised for running and
      successful metrics. */
  lemma LabelsAndFlagsByPhase(phase: Phase, failures: int, errors: int, inconclusives: int)
    ensures MetricStatusLabel(phase, failures, errors, inconclusives) == "" <==> phase.Other?
    ensures var text := MetricStatusLabel(phase, failures, errors, inconclusives);
            phase.Successful? <==> |text| >= 15 && text[..15] == "Analysis passed"
    ensures MetricSubstatus(phase, failures, errors, inconclusives).Some? ==> phase.Running? || phase.Successful?
  {
    var text := MetricStatusLabel(phase, failures, errors, inconclusives);
    if !phase.Successful? && |text| >= 15 {
      match phase {
        case Pending => assert text[10] == 'e';
        case Running => assert text[9] == 'i';
        case Failed => assert text[9] == 'f';
        case Inconclusive => assert text[9] == 'i';
        case Error => assert text[9] == 'e';
        case Unknown => assert text[9] == 's';
        case _ =>
      }
    }
  }
}
