/** Measuring predictions against delayed ground truth. */
module Performance {
  import opened Wrappers
  import opened Batches
  import opened Tables
  import opened Counting
  import opened Matching
  import M = Monitoring
  import G = Regression
  import C = Classification
  import P = Psi

  /******* The report, by whole datasets *******/

  // The matched rows of two whole datasets.
  function AllMatches(rt: Runtime, s: M.Spec, truthRows: seq<Row>, rows: seq<Row>): seq<Match> {
    Matches(rt, s, TruthOf(rt, s, truthRows), rows)
  }

  function RegressionMetrics(rt: Runtime, t: G.Sums, enough: bool): M.Metrics
    requires enough ==> t.n > 0
  {
    if !enough then M.Errors(None, None, None)
    else
      var n := t.n as real;
      var r2 := if t.m2 > 0.0 then Some(1.0 - t.squares / t.m2) else None;
      M.Errors(Some(t.errors / n), Some(rt.sqrt(t.squares / n)), r2)
  }

  ghost function MetricsOf(rt: Runtime, s: M.Spec, matches: seq<Match>): M.Metrics
    requires s.minimumRows >= 1
  {
    var enough := |matches| >= s.minimumRows;
    match s.task
    case Regression =>
      G.StreamIsExact(Points(rt, matches));
      RegressionMetrics(rt, G.Streamed(Points(rt, matches)), enough)
    case Classification =>
      if enough then
        M.Rates(Some(C.Accuracy(Outcomes(rt, matches))), Some(C.MacroF1(Outcomes(rt, matches))))
      else M.Rates(None, None)
  }

  ghost function Measured(rt: Runtime, s: M.Spec, truthRows: seq<Row>, rows: seq<Row>): M.Performance
    requires s.minimumRows >= 1
  {
    var matches := AllMatches(rt, s, truthRows, rows);
    M.Performance(s.task, |matches|, |rows| - |matches|, |truthRows| - |matches|,
                  if rows == [] then None else Some(|matches| as real / |rows| as real),
                  |matches| >= s.minimumRows, MetricsOf(rt, s, matches))
  }

  // Two of the labels differ.
  ghost predicate LabelsDiffer(points: seq<G.Point>) {
    exists i, j :: 0 <= i < j < |points| && points[i].actual != points[j].actual
  }

  ghost predicate AllRight(points: seq<G.Point>) {
    forall i | 0 <= i < |points| :: points[i].predicted == points[i].actual
  }

  // What mae, rmse and r2 are, by the sums over the points and the mean of their labels.
  ghost predicate IsRegressionOf(rt: Runtime, points: seq<G.Point>, m: M.Metrics, mean: real) {
    var n := |points|;
    && m.Errors? && m.mae.Some? && m.mae.value * n as real == G.Errors(points, n)
    && m.rmse.Some? && (exists x :: x * n as real == G.SquaredErrors(points, n) && m.rmse.value == rt.sqrt(x))
    && (m.r2.Some? <==> LabelsDiffer(points))
    && (m.r2.Some? ==> (1.0 - m.r2.value) * G.Deviations(points, n, mean) == G.SquaredErrors(points, n))
    && (m.r2 == Some(1.0) <==> LabelsDiffer(points) && AllRight(points))
  }

  /** A regression measured from enough matched points reports their mean absolute error, the root of their
      mean squared error, and the share of the labels' variation that the predictions explain, if they vary:
      one exactly when every prediction is right. From fewer points it reports nothing. */
  lemma RegressionIsExact(rt: Runtime, s: M.Spec, truthRows: seq<Row>, rows: seq<Row>, mean: real)
    requires s.minimumRows >= 1 && s.task == M.Regression
    requires var points := Points(rt, AllMatches(rt, s, truthRows, rows));
             mean * |points| as real == G.Labels(points, |points|)
    ensures var points := Points(rt, AllMatches(rt, s, truthRows, rows));
            var m := Measured(rt, s, truthRows, rows);
            && m.matched == |points|
            && if |points| >= s.minimumRows then m.measured && IsRegressionOf(rt, points, m.metrics, mean)
               else !m.measured && m.metrics == M.Errors(None, None, None)
  {
    var points := Points(rt, AllMatches(rt, s, truthRows, rows));
    if |points| >= s.minimumRows {
      G.StreamIsExact(points);
      SumsAreTheMetrics(rt, points, G.Streamed(points), mean);
    }
  }

  lemma SumsAreTheMetrics(rt: Runtime, points: seq<G.Point>, t: G.Sums, mean: real)
    requires points != [] && G.Exact(points, t) && mean * |points| as real == G.Labels(points, |points|)
    ensures t.n == |points| && IsRegressionOf(rt, points, RegressionMetrics(rt, t, true), mean)
  {
    var n := |points|;
    P.Cancel(t.mean, mean, n as real);
    var m := RegressionMetrics(rt, t, true);
    assert (t.errors / n as real) * n as real == t.errors;
    assert (t.squares / n as real) * n as real == t.squares;
    G.VariationDecides(points, mean);
    G.RightDecides(points, n);
    if t.m2 > 0.0 {
      assert (t.squares / t.m2) * t.m2 == t.squares;
      assert 1.0 - m.r2.value == t.squares / t.m2;
    }
  }

  // Both datasets are taken in without an error.
  ghost predicate Fits(rt: Runtime, s: M.Spec, truthRows: seq<Row>, rows: seq<Row>) {
    TruthFits(rt, s, truthRows) && PredictionsFit(rt, s, TruthOf(rt, s, truthRows), rows)
  }

  /******* The passes over the files *******/

  method ReadTruthBatch(rt: Runtime, s: M.Spec, truth: map<string, string>, batch: seq<Row>, ghost earlier: seq<Row>)
    returns (out: Option<map<string, string>>)
    requires truth == TruthOf(rt, s, earlier) && TruthFits(rt, s, earlier)
    ensures out.Some? <==> TruthFits(rt, s, earlier + batch)
    ensures out.Some? ==> out.value == TruthOf(rt, s, earlier + batch)
  {
    var known := truth;
    assert earlier + batch[..0] == earlier;
    for i := 0 to |batch|
      invariant known == TruthOf(rt, s, earlier + batch[..i]) && TruthFits(rt, s, earlier + batch[..i])
    {
      var r := batch[i];
      TruthOneMore(rt, s, earlier + batch[..i], r);
      TruthFitsOneMore(rt, s, earlier + batch[..i], r);
      assert earlier + batch[..i + 1] == (earlier + batch[..i]) + [r];
      if r(s.truth) == Missing || !KeyFits(rt, r(s.entityKey)) || Key(rt, s.entityKey, r) in known {
        FitsBefore(rt, s, earlier, batch, i + 1);
        return None;
      }
      known := known[Key(rt, s.entityKey, r) := Str(rt, r(s.truth))];
    }
    assert batch[..|batch|] == batch;
    return Some(known);
  }

  lemma FitsBefore(rt: Runtime, s: M.Spec, earlier: seq<Row>, batch: seq<Row>, i: nat)
    requires i <= |batch|
    ensures TruthFits(rt, s, earlier + batch) ==> TruthFits(rt, s, earlier + batch[..i])
  {
    var all := earlier + batch;
    assert all[..|earlier| + i] == earlier + batch[..i];
    if TruthFits(rt, s, all) {
      TruthFitsPrefix(rt, s, all, |earlier| + i);
    }
  }

  lemma FileFitsBefore(rt: Runtime, s: M.Spec, file: File, k: nat)
    requires k <= |file|
    ensures TruthFits(rt, s, Rows(file)) ==> TruthFits(rt, s, Rows(file[..k]))
  {
    RowsPrefix(file, k);
    if TruthFits(rt, s, Rows(file)) {
      TruthFitsPrefix(rt, s, Rows(file), |Rows(file[..k])|);
    }
  }

  method ReadTruth(rt: Runtime, s: M.Spec, file: File) returns (out: Option<map<string, string>>)
    ensures out.Some? <==> TruthFits(rt, s, Rows(file))
    ensures out.Some? ==> out.value == TruthOf(rt, s, Rows(file))
  {
    var truth := map[];
    RowsOfAll(file);
    for k := 0 to |file|
      invariant truth == TruthOf(rt, s, Rows(file[..k])) && TruthFits(rt, s, Rows(file[..k]))
    {
      RowsOneMore(file, k);
      var next := ReadTruthBatch(rt, s, truth, file[k], Rows(file[..k]));
      if next.None? {
        FileFitsBefore(rt, s, file, k + 1);
        return None;
      }
      truth := next.value;
    }
    return Some(truth);
  }

  // The batch holds the rows from `start` to `end`.
  method JoinBatch(rt: Runtime, s: M.Spec, truth: map<string, string>, p: Progress, batch: seq<Row>,
      ghost rows: seq<Row>, ghost start: nat, ghost end: nat)
    returns (out: Option<Progress>)
    requires end == start + |batch| <= |rows| && forall i | 0 <= i < |batch| :: batch[i] == rows[start + i]
    requires Joining(rt, s, truth, rows, start) == Some(p)
    ensures out == Joining(rt, s, truth, rows, end)
  {
    out := Some(p);
    ghost var at := start;
    for i := 0 to |batch|
      invariant at == start + i && out.Some? && Joining(rt, s, truth, rows, at) == out
    {
      out := Take(rt, s, truth, out.value, batch[i]);
      at := at + 1;
      if out.None? {
        RefusedStays(rt, s, truth, rows, at, end);
        return;
      }
    }
  }

  method JoinAll(rt: Runtime, s: M.Spec, truth: map<string, string>, file: File) returns (out: Option<Progress>)
    ensures out == Joining(rt, s, truth, Rows(file), |Rows(file)|)
  {
    ghost var rows, n := Rows(file), 0;
    out := Some(START);
    RowsOfAll(file);
    for k := 0 to |file|
      invariant n == |Rows(file[..k])| <= |rows|
      invariant out.Some? && Joining(rt, s, truth, rows, n) == out
    {
      BatchOfRows(file, k);
      ghost var end := n + |file[k]|;
      out := JoinBatch(rt, s, truth, out.value, file[k], rows, n, end);
      n := end;
      if out.None? {
        RefusedStays(rt, s, truth, rows, n, |rows|);
        return;
      }
    }
  }

  method JoinPredictions(rt: Runtime, s: M.Spec, truth: map<string, string>, file: File) returns (out: Option<Progress>)
    ensures out.Some? <==> PredictionsFit(rt, s, truth, Rows(file))
    ensures out.Some? ==> Follows(rt, s, truth, Rows(file), out.value)
  {
    out := JoinAll(rt, s, truth, file);
    JoinedAll(rt, s, truth, Rows(file));
  }

  lemma JoinedAll(rt: Runtime, s: M.Spec, truth: map<string, string>, rows: seq<Row>)
    ensures Joining(rt, s, truth, rows, |rows|).Some? <==> PredictionsFit(rt, s, truth, rows)
    ensures Joining(rt, s, truth, rows, |rows|).Some? ==>
              Follows(rt, s, truth, rows, Joining(rt, s, truth, rows, |rows|).value)
  {
    JoiningIsExact(rt, s, truth, rows, |rows|);
    assert rows[..|rows|] == rows;
  }

  // The metrics, from what the pass collected.
  method Metrics(rt: Runtime, s: M.Spec, p: Progress, ghost matches: seq<Match>) returns (metrics: M.Metrics)
    requires s.minimumRows >= 1 && Summarizes(rt, s, matches, p)
    ensures metrics == MetricsOf(rt, s, matches)
  {
    var enough := p.matched >= s.minimumRows;
    match s.task {
      case Regression =>
        G.StreamIsExact(Points(rt, matches));
        metrics := RegressionMetrics(rt, p.sums, enough);
      case Classification =>
        metrics := M.Rates(None, None);
        if enough {
          var accuracy, macroF1 := C.Score(p.confusion, p.matched, Outcomes(rt, matches));
          metrics := M.Rates(Some(accuracy), Some(macroF1));
        }
    }
  }

  // An error, or the measurement if there is ground truth to measure by.
  ghost predicate Succeeds(rt: Runtime, s: M.Spec, feedback: File, observed: File) {
    s.feedback.Some? ==>
      && Readable(feedback, s.maxRows, s.feedback.value.rowCount) && Readable(observed, s.maxRows, s.observed.rowCount)
      && Fits(rt, s, Rows(feedback), Rows(observed))
  }

  /** What is measured is a function of the two whole datasets, however their files are cut into batches. */
  method Perform(rt: Runtime, s: M.Spec, feedback: File, observed: File) returns (out: Result<Option<M.Performance>>)
    requires s.minimumRows >= 1 && s.maxRows >= 0
    ensures out.Ok? <==> Succeeds(rt, s, feedback, observed)
    ensures out.Err? ==> out.error == InvalidArgument
    ensures out.Ok? ==>
              out.value == if s.feedback.Some? then Some(Measured(rt, s, Rows(feedback), Rows(observed))) else None
  {
    if s.feedback.None? {
      return Ok(None);
    }
    var readable := Frames(feedback, s.maxRows, s.feedback.value.rowCount);
    if !readable {
      return Err(InvalidArgument);
    }
    var truth := ReadTruth(rt, s, feedback);
    if truth.None? {
      return Err(InvalidArgument);
    }
    readable := Frames(observed, s.maxRows, s.observed.rowCount);
    if !readable {
      return Err(InvalidArgument);
    }
    var progress := JoinPredictions(rt, s, truth.value, observed);
    if progress.None? {
      return Err(InvalidArgument);
    }
    var performance := Summarize(rt, s, truth.value, progress.value, Rows(feedback), Rows(observed));
    return Ok(Some(performance));
  }

  method Summarize(rt: Runtime, s: M.Spec, truth: map<string, string>, p: Progress, ghost truthRows: seq<Row>,
      ghost rows: seq<Row>)
    returns (performance: M.Performance)
    requires s.minimumRows >= 1 && TruthFits(rt, s, truthRows) && truth == TruthOf(rt, s, truthRows)
    requires Follows(rt, s, truth, rows, p)
    ensures performance == Measured(rt, s, truthRows, rows)
  {
    TruthCounts(rt, s, truthRows);
    var metrics := Metrics(rt, s, p, AllMatches(rt, s, truthRows, rows));
    var coverage := if p.observed == 0 then None else Some(p.matched as real / p.observed as real);
    performance := M.Performance(s.task, p.matched, p.observed - p.matched, |truth| - p.matched, coverage,
        p.matched >= s.minimumRows, metrics);
  }

  lemma TruthCounts(rt: Runtime, s: M.Spec, truthRows: seq<Row>)
    requires TruthFits(rt, s, truthRows)
    ensures |TruthOf(rt, s, truthRows)| == |truthRows|
  {
    TruthKeys(rt, s, truthRows);
    UniqueKeysCount(rt, s.entityKey, truthRows);
    var truth := TruthOf(rt, s, truthRows);
    assert |truth| == |truth.Keys|;
  }

  /******* What a measurement can be *******/

  // Errors are never negative and ordered, r2 is at most one, rates are rates; they are there when measured.
  predicate MetricsAreSound(m: M.Metrics, measured: bool) {
    match m
    case Errors(mae, rmse, r2) =>
      && mae.Some? == rmse.Some? == measured
      && (r2.Some? ==> measured && r2.value <= 1.0)
      && (measured ==> 0.0 <= mae.value <= rmse.value)
    case Rates(accuracy, macroF1) =>
      && accuracy.Some? == macroF1.Some? == measured
      && M.IsRate(accuracy) && M.IsRate(macroF1)
      && (measured ==> (accuracy.value == 1.0 <==> macroF1.value == 1.0))
  }

  lemma MetricsOfAreSound(rt: Runtime, s: M.Spec, matches: seq<Match>)
    requires Faithful(rt) && s.minimumRows >= 1
    ensures MetricsAreSound(MetricsOf(rt, s, matches), |matches| >= s.minimumRows)
    ensures MetricsOf(rt, s, matches).Errors? <==> s.task == M.Regression
  {
    if |matches| >= s.minimumRows {
      if s.task == M.Regression {
        var points := Points(rt, matches);
        G.StreamIsExact(points);
        G.MetricsAreBounded(points, G.Streamed(points), rt.sqrt);
      } else {
        C.ScoresAreRates(Outcomes(rt, matches));
      }
    }
  }

  /** Matched rows are at most the rows of either side; coverage and metrics are within their bounds. */
  lemma MeasuredIsSound(rt: Runtime, s: M.Spec, truthRows: seq<Row>, rows: seq<Row>)
    requires Faithful(rt) && s.minimumRows >= 1 && Fits(rt, s, truthRows, rows)
    ensures var p := Measured(rt, s, truthRows, rows);
            && 0 <= p.matched && 0 <= p.unmatchedPredictions && 0 <= p.unmatchedTruth
            && p.matched + p.unmatchedPredictions == |rows| && p.matched + p.unmatchedTruth == |truthRows|
            && (p.coverage.None? <==> rows == []) && M.IsRate(p.coverage)
            && p.measured == (p.matched >= s.minimumRows)
            && MetricsAreSound(p.metrics, p.measured) && (p.metrics.Errors? <==> s.task == M.Regression)
  {
    MatchedAtMostTruth(rt, s, truthRows, rows);
    MetricsOfAreSound(rt, s, AllMatches(rt, s, truthRows, rows));
    if rows != [] {
      C.RateOf(|AllMatches(rt, s, truthRows, rows)| as real, |rows| as real);
    }
  }

  /******* Order *******/

  function MatchRow(rt: Runtime, s: M.Spec, truth: map<string, string>): Row -> seq<Match> {
    (r: Row) => if Found(rt, s, truth, r) then [Match(truth[Key(rt, s.entityKey, r)], r(s.prediction))] else []
  }

  lemma {:induction false} MatchesAreCollected(rt: Runtime, s: M.Spec, truth: map<string, string>, rows: seq<Row>)
    ensures Matches(rt, s, truth, rows) == Collect(rows, MatchRow(rt, s, truth))
  {
    if rows != [] {
      MatchesAreCollected(rt, s, truth, rows[..|rows| - 1]);
    }
  }

  lemma {:induction false} PointsAreCollected(rt: Runtime, matches: seq<Match>)
    ensures Points(rt, matches) == Collect(matches, (m: Match) => [Point(rt, m)])
    ensures Outcomes(rt, matches) == Collect(matches, (m: Match) => [Outcome(rt, m)])
  {
    if matches != [] {
      var last := |matches| - 1;
      PointsAreCollected(rt, matches[..last]);
      assert Points(rt, matches) == Points(rt, matches[..last]) + [Point(rt, matches[last])];
      assert Outcomes(rt, matches) == Outcomes(rt, matches[..last]) + [Outcome(rt, matches[last])];
    }
  }

  lemma ProjectionsPermute(rt: Runtime, a: seq<Match>, b: seq<Match>)
    requires Permuted(a, b)
    ensures Permuted(Points(rt, a), Points(rt, b)) && Permuted(Outcomes(rt, a), Outcomes(rt, b))
  {
    PointsAreCollected(rt, a);
    PointsAreCollected(rt, b);
    CollectPermutes(a, b, (m: Match) => [Point(rt, m)]);
    CollectPermutes(a, b, (m: Match) => [Outcome(rt, m)]);
  }

  lemma MetricsIgnoreOrder(rt: Runtime, s: M.Spec, a: seq<Match>, b: seq<Match>)
    requires s.minimumRows >= 1 && Permuted(a, b)
    ensures |a| == |b| && MetricsOf(rt, s, a) == MetricsOf(rt, s, b)
  {
    PermutedAgree(a, b, (m: Match) => true, (m: Match) => 0.0);
    ProjectionsPermute(rt, a, b);
    G.StreamIgnoresOrder(Points(rt, a), Points(rt, b));
    if a != [] {
      C.ScoresIgnoreOrder(Outcomes(rt, a), Outcomes(rt, b));
    }
  }

  lemma TruthIgnoresOrder(rt: Runtime, s: M.Spec, a: seq<Row>, b: seq<Row>)
    requires Permuted(a, b) && TruthFits(rt, s, a) && TruthFits(rt, s, b)
    ensures TruthOf(rt, s, a) == TruthOf(rt, s, b)
  {
    TruthWithin(rt, s, a, b);
    TruthWithin(rt, s, b, a);
  }

  lemma TruthWithin(rt: Runtime, s: M.Spec, a: seq<Row>, b: seq<Row>)
    requires Permuted(a, b) && TruthFits(rt, s, a) && TruthFits(rt, s, b)
    ensures forall k | k in TruthOf(rt, s, a) :: k in TruthOf(rt, s, b) && TruthOf(rt, s, b)[k] == TruthOf(rt, s, a)[k]
  {
    TruthKeys(rt, s, a);
    forall k | k in TruthOf(rt, s, a) ensures k in TruthOf(rt, s, b) && TruthOf(rt, s, b)[k] == TruthOf(rt, s, a)[k] {
      var i :| 0 <= i < |a| && Key(rt, s.entityKey, a[i]) == k;
      PermutedMembers(a, b, a[i]);
      var j :| 0 <= j < |b| && b[j] == a[i];
      TruthIsTheRows(rt, s, a, i);
      TruthIsTheRows(rt, s, b, j);
    }
  }

  lemma TruthFitsPermutes(rt: Runtime, s: M.Spec, a: seq<Row>, b: seq<Row>)
    requires Permuted(a, b) && TruthFits(rt, s, a)
    ensures TruthFits(rt, s, b)
  {
    UniquePermutes(rt, s.entityKey, a, b);
    forall i | 0 <= i < |b| ensures b[i](s.truth) != Missing {
      PermutedMembers(a, b, b[i]);
    }
  }

  lemma MatchesPermute(rt: Runtime, s: M.Spec, truth: map<string, string>, a: seq<Row>, b: seq<Row>)
    requires Permuted(a, b)
    ensures Permuted(Matches(rt, s, truth, a), Matches(rt, s, truth, b))
  {
    MatchesAreCollected(rt, s, truth, a);
    MatchesAreCollected(rt, s, truth, b);
    CollectPermutes(a, b, MatchRow(rt, s, truth));
  }

  lemma FewLabelsPermutes(rt: Runtime, s: M.Spec, a: seq<Match>, b: seq<Match>)
    requires Permuted(a, b)
    ensures FewLabels(rt, s, a) <==> FewLabels(rt, s, b)
  {
    ProjectionsPermute(rt, a, b);
    C.LabelsPermute(Outcomes(rt, a), Outcomes(rt, b));
  }

  lemma PredictionsFitPermutes(rt: Runtime, s: M.Spec, truth: map<string, string>, a: seq<Row>, b: seq<Row>)
    requires Permuted(a, b) && PredictionsFit(rt, s, truth, a)
    ensures PredictionsFit(rt, s, truth, b)
  {
    UniquePermutes(rt, s.entityKey, a, b);
    MatchesPermute(rt, s, truth, a, b);
    FewLabelsPermutes(rt, s, Matches(rt, s, truth, a), Matches(rt, s, truth, b));
    forall i | 0 <= i < |b| ensures !Null(rt, s, truth, b[i]) {
      PermutedMembers(a, b, b[i]);
    }
  }

  /** The order of the rows of either dataset changes neither whether they are taken in nor what is
      measured. */
  lemma MeasuredIgnoresOrder(rt: Runtime, s: M.Spec, truthRows: seq<Row>, rows: seq<Row>, t: seq<Row>, r: seq<Row>)
    requires s.minimumRows >= 1 && Permuted(truthRows, t) && Permuted(rows, r)
    requires Fits(rt, s, truthRows, rows)
    ensures Fits(rt, s, t, r) && Measured(rt, s, truthRows, rows) == Measured(rt, s, t, r)
  {
    var truth := TruthOf(rt, s, truthRows);
    TruthFitsPermutes(rt, s, truthRows, t);
    TruthIgnoresOrder(rt, s, truthRows, t);
    PredictionsFitPermutes(rt, s, truth, rows, r);
    MatchesPermute(rt, s, truth, rows, r);
    MetricsIgnoreOrder(rt, s, Matches(rt, s, truth, rows), Matches(rt, s, truth, r));
    SameSize(truthRows, t);
    SameSize(rows, r);
  }
}
