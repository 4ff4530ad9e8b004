/** What a monitoring check is asked for and what it reports. */
module Monitoring {
  import opened Wrappers
  import opened Tables

  datatype Dataset = Dataset(id: nat, columns: map<Name, Dtype>, rowCount: Option<nat>)

  datatype Task = Regression | Classification

  datatype Spec = Spec(
    model: nat,
    reference: Dataset,
    observed: Dataset,
    feedback: Option<Dataset>,
    features: seq<Name>,
    task: Task,
    entityKey: Name,
    prediction: Name,
    truth: Name,
    psiThreshold: real,
    missingRateThreshold: real,
    minimumRows: int,
    maxRows: int)

  const MAX_ROWS := 100000000

  predicate ColumnsAreNamed(d: Dataset) {
    forall name | name in d.columns :: 1 <= |name| <= 128
  }

  predicate Shared(a: Dataset, b: Dataset, name: Name) {
    name in a.columns && name in b.columns && a.columns[name] == b.columns[name]
  }

  // The bounds a specification is created within.
  predicate WithinBounds(s: Spec) {
    && 0.0 < s.psiThreshold <= 100.0
    && 0.0 < s.missingRateThreshold <= 1.0
    && 1 <= s.minimumRows <= s.maxRows <= MAX_ROWS
    && 1 <= |s.features| <= 32
    && (forall i, j | 0 <= i < j < |s.features| :: s.features[i] != s.features[j])
    && (forall i | 0 <= i < |s.features| :: Shared(s.reference, s.observed, s.features[i]))
    && ColumnsAreNamed(s.reference) && ColumnsAreNamed(s.observed)
    && (s.feedback.Some? ==> FeedbackFits(s, s.feedback.value))
  }

  predicate FeedbackFits(s: Spec, feedback: Dataset) {
    && s.entityKey != "" && Shared(s.observed, feedback, s.entityKey)
    && s.prediction in s.observed.columns && s.truth in feedback.columns
    && match s.task
       case Regression => IsNumeric(s.observed.columns[s.prediction]) && IsNumeric(feedback.columns[s.truth])
       case Classification => s.observed.columns[s.prediction] == feedback.columns[s.truth]
  }

  datatype Status = Stable | Drifted | Insufficient

  datatype Feature = Feature(
    name: Name,
    dtype: Dtype,
    psi: Option<real>,
    referenceMissing: Option<real>,
    observedMissing: Option<real>,
    missingChange: Option<real>,
    drifted: bool,
    status: Status)

  datatype Metrics =
    | Errors(mae: Option<real>, rmse: Option<real>, r2: Option<real>)
    | Rates(accuracy: Option<real>, macroF1: Option<real>)

  datatype Performance = Performance(
    task: Task,
    matched: int,
    unmatchedPredictions: int,
    unmatchedTruth: int,
    coverage: Option<real>,
    measured: bool,
    metrics: Metrics)

  datatype Report = Report(
    execution: string,
    model: nat,
    reference: nat,
    observed: nat,
    feedback: Option<nat>,
    status: Status,
    referenceRows: int,
    observedRows: int,
    features: seq<Feature>,
    performance: Option<Performance>)

  predicate IsRate(x: Option<real>) {
    x.Some? ==> 0.0 <= x.value <= 1.0
  }
}
