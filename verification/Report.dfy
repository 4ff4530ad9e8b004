/** The worker's report of a monitoring check, and the control plane's own check of that report. */
module Report {
  import opened Wrappers
  import opened Batches
  import opened Tables
  import opened Monitoring
  import D = Drift
  import G = Regression
  import P = Performance
  import H = Histogram
  import C = Classification

  // The length of a report's JSON text.
  type Encoder = Report -> nat

  const MAX_REPORT: nat := 32768

  /******* The worker *******/

  function StatusOf(features: seq<Feature>): Status {
    if exists i | 0 <= i < |features| :: features[i].drifted then Drifted
    else if forall i | 0 <= i < |features| :: features[i].status == Stable then Stable
    else Insufficient
  }

  /** A check of two or three datasets, in whatever batches their files are read. Every report it makes is
      one that the control plane accepts. */
  method Execute(rt: Runtime, encoded: Encoder, s: Spec, execution: string, reference: File, observed: File,
      feedback: File)
    returns (out: Result<Report>)
    requires Faithful(rt) && WithinBounds(s) && |execution| <= MAX_EXECUTION
    ensures out.Ok? ==> Accepts(encoded, s, execution, out.value)
    ensures out.Ok? <==>
              && D.Accepted(rt, s, reference, observed) && P.Succeeds(rt, s, feedback, observed)
              && encoded(ReportOf(rt, s, execution, Rows(reference), Rows(observed), Rows(feedback))) <= 32768
    ensures out.Err? ==> out.error == InvalidArgument
    ensures out.Ok? ==> out.value == ReportOf(rt, s, execution, Rows(reference), Rows(observed), Rows(feedback))
  {
    var drift := D.Compare(rt, s, reference, observed);
    if drift.Err? {
      return Err(drift.error);
    }
    var performance := P.Perform(rt, s, feedback, observed);
    if performance.Err? {
      return Err(performance.error);
    }
    var features := drift.value.features;
    var feedbackId := if s.feedback.Some? then Some(s.feedback.value.id) else None;
    var report := Report(execution, s.model, s.reference.id, s.observed.id, feedbackId, StatusOf(features),
                         drift.value.referenceRows, drift.value.observedRows, features, performance.value);
    FeaturesAreThese(rt, s, Rows(reference), Rows(observed), features);
    if encoded(report) > MAX_REPORT {
      return Err(InvalidArgument);
    }
    WorkerIsAccepted(rt, encoded, s, execution, reference, observed, feedback);
    return Ok(report);
  }

  ghost function FeaturesOf(rt: Runtime, s: Spec, reference: seq<Row>, observed: seq<Row>): seq<Feature>
    requires D.HasColumns(s)
  {
    seq(|s.features|, f requires 0 <= f < |s.features| => D.FeatureOf(rt, s, reference, observed, s.features[f]))
  }

  // The report, by whole datasets.
  ghost function ReportOf(rt: Runtime, s: Spec, execution: string, reference: seq<Row>, observed: seq<Row>,
      feedback: seq<Row>): Report
    requires WithinBounds(s)
  {
    var features := FeaturesOf(rt, s, reference, observed);
    Report(execution, s.model, s.reference.id, s.observed.id,
           if s.feedback.Some? then Some(s.feedback.value.id) else None,
           StatusOf(features), |reference|, |observed|, features,
           if s.feedback.Some? then Some(P.Measured(rt, s, feedback, observed)) else None)
  }

  lemma FeaturesAreThese(rt: Runtime, s: Spec, reference: seq<Row>, observed: seq<Row>, features: seq<Feature>)
    requires D.HasColumns(s) && D.AreFeatures(rt, s, reference, observed, features)
    ensures features == FeaturesOf(rt, s, reference, observed)
  {
  }

  /******* The control plane *******/

  const MAX_EXECUTION: nat := 100

  predicate IsCount(n: int) {
    0 <= n <= MAX_ROWS
  }

  // The numbers of a feature are within the bounds of the report's format.
  predicate FeatureParses(f: Feature) {
    && 1 <= |f.name| <= 128
    && (f.psi.Some? ==> f.psi.value >= 0.0)
    && IsRate(f.referenceMissing) && IsRate(f.observedMissing) && IsRate(f.missingChange)
  }

  predicate Parses(r: Report) {
    && |r.execution| <= MAX_EXECUTION
    && IsCount(r.referenceRows) && IsCount(r.observedRows)
    && 1 <= |r.features| <= 32
    && (forall i | 0 <= i < |r.features| :: FeatureParses(r.features[i]))
    && (r.performance.Some? ==>
          var p := r.performance.value;
          IsCount(p.matched) && IsCount(p.unmatchedPredictions) && IsCount(p.unmatchedTruth) && IsRate(p.coverage))
  }

  predicate IsForSpec(s: Spec, execution: string, r: Report) {
    && r.execution == execution
    && r.model == s.model && r.reference == s.reference.id && r.observed == s.observed.id
    && r.feedback == (if s.feedback.Some? then Some(s.feedback.value.id) else None)
  }

  predicate RowsMatch(d: Dataset, rows: int, maxRows: int) {
    0 <= rows <= maxRows && (d.rowCount.Some? ==> rows == d.rowCount.value)
  }

  // Recomputed from the reported numbers.
  function ChangeOf(a: Option<real>, b: Option<real>): Option<real> {
    if a.Some? && b.Some? then Some(G.Abs(a.value - b.value)) else None
  }

  predicate Flagged(s: Spec, enough: bool, f: Feature) {
    && enough
    && ((f.psi.Some? && f.psi.value >= s.psiThreshold)
        || (f.missingChange.Some? && f.missingChange.value >= s.missingRateThreshold))
  }

  predicate FeatureAgrees(s: Spec, r: Report, enough: bool, f: Feature) {
    && (f.referenceMissing.None? <==> r.referenceRows == 0)
    && (f.observedMissing.None? <==> r.observedRows == 0)
    && f.missingChange == ChangeOf(f.referenceMissing, f.observedMissing)
    && (!enough ==> f.psi.None?)
    && f.name in s.reference.columns && f.dtype == s.reference.columns[f.name]
    && f.drifted == Flagged(s, enough, f)
    && f.status == if Flagged(s, enough, f) then Drifted else if enough && f.psi.Some? then Stable else Insufficient
  }

  predicate IsEnough(s: Spec, r: Report) {
    r.referenceRows >= s.minimumRows && r.observedRows >= s.minimumRows
  }

  predicate StatusAgrees(r: Report) {
    match r.status
    case Drifted => exists i | 0 <= i < |r.features| :: r.features[i].drifted
    case Stable => forall i | 0 <= i < |r.features| :: !r.features[i].drifted && r.features[i].status == Stable
    case Insufficient =>
      && (forall i | 0 <= i < |r.features| :: !r.features[i].drifted)
      && (exists i | 0 <= i < |r.features| :: r.features[i].status != Stable)
  }

  // A value that must be there when measured, or must not be there otherwise.
  predicate MetricAgrees(measured: bool, optional: bool, x: Option<real>) {
    if x.Some? then measured else measured ==> optional
  }

  predicate MetricsAgree(s: Spec, measured: bool, m: Metrics) {
    match m
    case Errors(mae, rmse, r2) =>
      && s.task == Regression
      && MetricAgrees(measured, false, mae) && (mae.Some? ==> mae.value >= 0.0)
      && MetricAgrees(measured, false, rmse) && (rmse.Some? ==> rmse.value >= 0.0)
      && MetricAgrees(measured, true, r2) && (r2.Some? ==> r2.value <= 1.0)
    case Rates(accuracy, macroF1) =>
      && s.task == Classification
      && MetricAgrees(measured, false, accuracy) && IsRate(accuracy)
      && MetricAgrees(measured, false, macroF1) && IsRate(macroF1)
  }

  predicate PerformanceAgrees(s: Spec, r: Report, feedback: Dataset, p: Performance) {
    && p.task == s.task
    && p.matched + p.unmatchedPredictions == r.observedRows
    && p.matched + p.unmatchedTruth <= s.maxRows
    && p.coverage == (if r.observedRows == 0 then None else Some(p.matched as real / r.observedRows as real))
    && p.measured == (p.matched >= s.minimumRows)
    && (feedback.rowCount.Some? ==> p.matched + p.unmatchedTruth == feedback.rowCount.value)
    && MetricsAgree(s, p.measured, p.metrics)
  }

  predicate NamesAgree(s: Spec, r: Report) {
    |r.features| == |s.features| && forall i | 0 <= i < |s.features| :: r.features[i].name == s.features[i]
  }

  predicate Accepts(encoded: Encoder, s: Spec, execution: string, r: Report) {
    && encoded(r) <= MAX_REPORT
    && Parses(r) && IsForSpec(s, execution, r)
    && RowsMatch(s.reference, r.referenceRows, s.maxRows) && RowsMatch(s.observed, r.observedRows, s.maxRows)
    && NamesAgree(s, r)
    && (forall i | 0 <= i < |r.features| :: FeatureAgrees(s, r, IsEnough(s, r), r.features[i]))
    && StatusAgrees(r)
    && (r.performance.Some? <==> s.feedback.Some?)
    && (s.feedback.Some? ==> PerformanceAgrees(s, r, s.feedback.value, r.performance.value))
  }

  /******* Agreement *******/

  lemma StatusOfAgrees(r: Report)
    requires r.status == StatusOf(r.features)
    requires forall i | 0 <= i < |r.features| :: r.features[i].drifted <==> r.features[i].status == Drifted
    ensures StatusAgrees(r)
  {
  }

  lemma RowsCount(rows: int, d: Dataset, file: File, maxRows: int)
    requires maxRows <= MAX_ROWS && rows == |Rows(file)| && Readable(file, maxRows, d.rowCount)
    ensures IsCount(rows) && RowsMatch(d, rows, maxRows)
  {
  }

  lemma AbsIsSymmetric(a: Option<real>, b: Option<real>)
    ensures D.Change(a, b) == ChangeOf(a, b)
  {
  }

  lemma FeatureIsAccepted(rt: Runtime, s: Spec, r: Report, reference: seq<Row>, observed: seq<Row>, name: Name)
    requires Faithful(rt) && WithinBounds(s) && name in s.reference.columns
    requires r.referenceRows == |reference| && r.observedRows == |observed|
    ensures var f := D.FeatureOf(rt, s, reference, observed, name);
            && FeatureParses(f) && FeatureAgrees(s, r, IsEnough(s, r), f)
            && (f.drifted <==> f.status == Drifted) && f.name == name
  {
    D.FeatureIsSound(rt, s, reference, observed, name);
    var f := D.FeatureOf(rt, s, reference, observed, name);
    AbsIsSymmetric(f.referenceMissing, f.observedMissing);
  }

  lemma FeaturesAreAccepted(rt: Runtime, s: Spec, r: Report, reference: seq<Row>, observed: seq<Row>)
    requires Faithful(rt) && WithinBounds(s)
    requires r.referenceRows == |reference| && r.observedRows == |observed|
    requires r.features == FeaturesOf(rt, s, reference, observed) && r.status == StatusOf(r.features)
    ensures NamesAgree(s, r) && StatusAgrees(r)
    ensures forall i | 0 <= i < |r.features| ::
              FeatureParses(r.features[i]) && FeatureAgrees(s, r, IsEnough(s, r), r.features[i])
  {
    forall i | 0 <= i < |s.features|
      ensures FeatureParses(r.features[i]) && FeatureAgrees(s, r, IsEnough(s, r), r.features[i])
           && (r.features[i].drifted <==> r.features[i].status == Drifted) && r.features[i].name == s.features[i]
    {
      assert Shared(s.reference, s.observed, s.features[i]);
      FeatureIsAccepted(rt, s, r, reference, observed, s.features[i]);
    }
    StatusOfAgrees(r);
  }

  lemma PerformanceIsAccepted(rt: Runtime, s: Spec, r: Report, feedback: File, observed: File)
    requires Faithful(rt) && WithinBounds(s) && s.feedback.Some? && r.observedRows == |Rows(observed)|
    requires P.Succeeds(rt, s, feedback, observed)
    ensures var p := P.Measured(rt, s, Rows(feedback), Rows(observed));
            && PerformanceAgrees(s, r, s.feedback.value, p)
            && IsCount(p.matched) && IsCount(p.unmatchedPredictions) && IsCount(p.unmatchedTruth) && IsRate(p.coverage)
  {
    P.MeasuredIsSound(rt, s, Rows(feedback), Rows(observed));
  }

  /** Whatever the worker reports, within the encoding's limit, the control plane's own check accepts. */
  lemma WorkerIsAccepted(rt: Runtime, encoded: Encoder, s: Spec, execution: string, reference: File, observed: File,
      feedback: File)
    requires Faithful(rt) && WithinBounds(s) && |execution| <= MAX_EXECUTION
    requires D.Accepted(rt, s, reference, observed) && P.Succeeds(rt, s, feedback, observed)
    ensures var r := ReportOf(rt, s, execution, Rows(reference), Rows(observed), Rows(feedback));
            encoded(r) <= MAX_REPORT ==> Accepts(encoded, s, execution, r)
  {
    var r := ReportOf(rt, s, execution, Rows(reference), Rows(observed), Rows(feedback));
    RowsCount(r.referenceRows, s.reference, reference, s.maxRows);
    RowsCount(r.observedRows, s.observed, observed, s.maxRows);
    FeaturesAreAccepted(rt, s, r, Rows(reference), Rows(observed));
    if s.feedback.Some? {
      PerformanceIsAccepted(rt, s, r, feedback, observed);
    }
  }

  /******* What acceptance guarantees *******/

  // Two reports give the same numbers.
  predicate SameNumbers(a: Report, b: Report) {
    && a.referenceRows == b.referenceRows && a.observedRows == b.observedRows
    && |a.features| == |b.features|
    && (forall i | 0 <= i < |a.features| ::
          && a.features[i].psi == b.features[i].psi
          && a.features[i].referenceMissing == b.features[i].referenceMissing
          && a.features[i].observedMissing == b.features[i].observedMissing)
    && (a.performance.Some? && b.performance.Some? ==>
          && a.performance.value.matched == b.performance.value.matched
          && a.performance.value.unmatchedTruth == b.performance.value.unmatchedTruth
          && a.performance.value.metrics == b.performance.value.metrics)
  }

  lemma FeaturesAreDetermined(s: Spec, a: Report, b: Report, f: Feature, g: Feature)
    requires IsEnough(s, a) == IsEnough(s, b) && f.name == g.name
    requires f.psi == g.psi && f.referenceMissing == g.referenceMissing && f.observedMissing == g.observedMissing
    requires FeatureAgrees(s, a, IsEnough(s, a), f) && FeatureAgrees(s, b, IsEnough(s, b), g)
    ensures f == g
  {
  }

  /** The verdicts of an accepted report are decided by its numbers: no two accepted reports of one check
      give the same numbers and different verdicts. */
  lemma VerdictsAreDetermined(encoded: Encoder, s: Spec, execution: string, a: Report, b: Report)
    requires Accepts(encoded, s, execution, a) && Accepts(encoded, s, execution, b) && SameNumbers(a, b)
    ensures a == b
  {
    forall i | 0 <= i < |a.features| ensures a.features[i] == b.features[i] {
      assert a.features[i].name == s.features[i] && b.features[i].name == s.features[i];
      FeaturesAreDetermined(s, a, b, a.features[i], b.features[i]);
    }
    assert a.features == b.features;
    StatusIsDetermined(a, b);
  }

  lemma StatusIsDetermined(a: Report, b: Report)
    requires a.features == b.features && StatusAgrees(a) && StatusAgrees(b)
    ensures a.status == b.status
  {
  }

  /** The control plane's check, feature by feature and metric by metric. */
  method Validate(encoded: Encoder, s: Spec, execution: string, r: Report) returns (accepted: bool)
    ensures accepted <==> Accepts(encoded, s, execution, r)
  {
    if encoded(r) > MAX_REPORT || !Parses(r) || !IsForSpec(s, execution, r) {
      return false;
    }
    if !RowsMatch(s.reference, r.referenceRows, s.maxRows) || !RowsMatch(s.observed, r.observedRows, s.maxRows) {
      return false;
    }
    if !NamesAgree(s, r) {
      return false;
    }
    var enough := (if r.referenceRows < r.observedRows then r.referenceRows else r.observedRows) >= s.minimumRows;
    var anyDrifted, allStable := false, true;
    for i := 0 to |r.features|
      invariant forall j | 0 <= j < i :: FeatureAgrees(s, r, enough, r.features[j])
      invariant anyDrifted <==> exists j | 0 <= j < i :: r.features[j].drifted
      invariant allStable <==> forall j | 0 <= j < i :: r.features[j].status == Stable
    {
      var f := r.features[i];
      if !FeatureAgrees(s, r, enough, f) {
        return false;
      }
      anyDrifted, allStable := anyDrifted || f.drifted, allStable && f.status == Stable;
    }
    var status := if anyDrifted then Drifted else if allStable then Stable else Insufficient;
    if r.status != status || r.performance.Some? != s.feedback.Some? {
      return false;
    }
    return s.feedback.None? || PerformanceAgrees(s, r, s.feedback.value, r.performance.value);
  }

  /******* The one report with these numbers *******/

  ghost predicate BothLarge(s: Spec, r: Report) {
    s.minimumRows <= r.referenceRows && s.minimumRows <= r.observedRows
  }

  ghost function Distance(a: Option<real>, b: Option<real>): Option<real> {
    match (a, b)
    case (Some(x), Some(y)) => Some(if x < y then y - x else x - y)
    case _ => None
  }

  ghost predicate AtLeast(x: Option<real>, threshold: real) {
    match x
    case Some(value) => threshold <= value
    case None => false
  }

  // The verdicts on a feature by its numbers.
  ghost function Judged(s: Spec, enough: bool, f: Feature, name: Name): Feature
    requires name in s.reference.columns
  {
    var change := Distance(f.referenceMissing, f.observedMissing);
    var drifted := enough && (AtLeast(f.psi, s.psiThreshold) || AtLeast(change, s.missingRateThreshold));
    var status := if drifted then Drifted else if enough && f.psi != None then Stable else Insufficient;
    Feature(name, s.reference.columns[name], f.psi, f.referenceMissing, f.observedMissing, change, drifted, status)
  }

  ghost predicate IsShare(x: Option<real>) {
    match x
    case Some(value) => value >= 0.0 && value <= 1.0
    case None => true
  }

  // The numbers of a feature are possible ones.
  ghost predicate NumbersFit(s: Spec, r: Report, f: Feature) {
    && |f.name| >= 1 && |f.name| <= 128
    && IsShare(f.referenceMissing) && IsShare(f.observedMissing)
    && (f.referenceMissing == None <==> r.referenceRows == 0) && (f.observedMissing == None <==> r.observedRows == 0)
    && (f.psi != None ==> BothLarge(s, r) && AtLeast(f.psi, 0.0))
  }

  /** A feature's report is accepted exactly if its numbers are possible and all else follows from them. */
  lemma FeatureAcceptedExactly(s: Spec, r: Report, f: Feature)
    ensures FeatureParses(f) && FeatureAgrees(s, r, IsEnough(s, r), f) <==>
              NumbersFit(s, r, f) && f.name in s.reference.columns && f == Judged(s, BothLarge(s, r), f, f.name)
  {
  }

  ghost function Verdict(features: seq<Feature>): Status {
    if exists f :: f in features && f.drifted then Drifted
    else if forall f :: f in features ==> f.status == Stable then Stable
    else Insufficient
  }

  lemma VerdictDecides(r: Report)
    requires forall i | 0 <= i < |r.features| :: r.features[i].drifted <==> r.features[i].status == Drifted
    ensures StatusAgrees(r) <==> r.status == Verdict(r.features)
  {
  }

  // Within the rows of the dataset as it is registered, and of the check.
  ghost predicate RowsFit(d: Dataset, rows: int, maxRows: int) {
    && rows >= 0 && rows <= maxRows && rows <= 100000000
    && match d.rowCount
       case Some(registered) => rows == registered
       case None => true
  }

  // Metrics: all there when measured, but for an r2 that may be left out; none otherwise.
  ghost predicate MetricsFit(task: Task, measured: bool, m: Metrics) {
    match m
    case Errors(mae, rmse, r2) =>
      && task == Regression
      && (mae != None <==> measured) && (rmse != None <==> measured) && (r2 != None ==> measured)
      && (measured ==> AtLeast(mae, 0.0) && AtLeast(rmse, 0.0)) && (r2 != None ==> r2.value <= 1.0)
    case Rates(accuracy, macroF1) =>
      && task == Classification
      && (accuracy != None <==> measured) && (macroF1 != None <==> measured) && IsShare(accuracy) && IsShare(macroF1)
  }

  // What a performance with these numbers has to be.
  ghost function Rated(s: Spec, observedRows: int, p: Performance): Performance {
    Performance(s.task, p.matched, observedRows - p.matched, p.unmatchedTruth,
                if observedRows == 0 then None else Some(p.matched as real / observedRows as real),
                p.matched >= s.minimumRows, p.metrics)
  }

  ghost predicate PerformanceFits(s: Spec, r: Report, feedback: Dataset, p: Performance) {
    && p == Rated(s, r.observedRows, p)
    && p.matched >= 0 && p.matched <= r.observedRows && p.unmatchedTruth >= 0 && p.unmatchedTruth <= 100000000
    && p.matched + p.unmatchedTruth <= s.maxRows
    && (match feedback.rowCount
        case Some(registered) => p.matched + p.unmatchedTruth == registered
        case None => true)
    && MetricsFit(s.task, p.measured, p.metrics)
  }

  lemma PerformanceAcceptedExactly(s: Spec, r: Report, feedback: Dataset, p: Performance)
    requires RowsFit(s.observed, r.observedRows, s.maxRows)
    ensures (&& PerformanceAgrees(s, r, feedback, p)
             && IsCount(p.matched) && IsCount(p.unmatchedPredictions) && IsCount(p.unmatchedTruth)
             && IsRate(p.coverage))
       <==> PerformanceFits(s, r, feedback, p)
  {
    if 0 <= p.matched <= r.observedRows && r.observedRows > 0 {
      C.RateOf(p.matched as real, r.observedRows as real);
    }
  }

  /** A report is accepted exactly if it is for the execution and the specification, its numbers are possible
      ones, and it is the one report with these numbers. */
  lemma AcceptedExactly(encoded: Encoder, s: Spec, execution: string, r: Report)
    ensures Accepts(encoded, s, execution, r) <==>
              && encoded(r) <= 32768 && r.execution == execution && |execution| <= 100
              && r.model == s.model && r.reference == s.reference.id && r.observed == s.observed.id
              && RowsFit(s.reference, r.referenceRows, s.maxRows) && RowsFit(s.observed, r.observedRows, s.maxRows)
              && |r.features| == |s.features| && 1 <= |s.features| <= 32
              && (forall i | 0 <= i < |s.features| ::
                    && NumbersFit(s, r, r.features[i]) && s.features[i] in s.reference.columns
                    && r.features[i] == Judged(s, BothLarge(s, r), r.features[i], s.features[i]))
              && r.status == Verdict(r.features)
              && match s.feedback
                 case None => r.feedback == None && r.performance == None
                 case Some(d) =>
                   && r.feedback == Some(d.id) && r.performance != None
                   && PerformanceFits(s, r, d, r.performance.value)
  {
    forall i | 0 <= i < |r.features|
      ensures FeatureParses(r.features[i]) && FeatureAgrees(s, r, IsEnough(s, r), r.features[i]) <==>
                && NumbersFit(s, r, r.features[i]) && r.features[i].name in s.reference.columns
                && r.features[i] == Judged(s, BothLarge(s, r), r.features[i], r.features[i].name)
    {
      FeatureAcceptedExactly(s, r, r.features[i]);
    }
    if forall i | 0 <= i < |r.features| :: r.features[i].drifted <==> r.features[i].status == Drifted {
      VerdictDecides(r);
    }
    if s.feedback.Some? && r.performance.Some? && RowsFit(s.observed, r.observedRows, s.maxRows) {
      PerformanceAcceptedExactly(s, r, s.feedback.value, r.performance.value);
    }
  }
}
