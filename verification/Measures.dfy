/** What the numbers of a monitoring report are, told by the rows of the datasets alone. */
module Measures {
  import opened Wrappers
  import opened Tables
  import opened Counting
  import opened Histogram
  import opened Matching
  import M = Monitoring
  import D = Drift
  import P = Psi
  import G = Regression
  import C = Classification
  import F = Performance

  /******* Drift *******/

  // The rows without a value in a column.
  ghost function MissingRows(rows: seq<Row>, name: Name): set<int> {
    set i | 0 <= i < |rows| && rows[i](name) == Missing
  }

  lemma MissingAreCounted(rows: seq<Row>, name: Name)
    ensures CountIf(rows, IsMissing(name)) == |MissingRows(rows, name)|
  {
    CountIsASet(rows, IsMissing(name));
    assert Where(rows, IsMissing(name)) == MissingRows(rows, name);
  }

  // The rows whose value falls into slot k.
  ghost function SlotRows(rt: Runtime, b: Bins, rows: seq<Row>, name: Name, k: nat): set<int> {
    set i | 0 <= i < |rows| && Slot(rt, b, rows[i](name)) == k
  }

  // The histogram of a column.
  ghost predicate IsHistogram(rt: Runtime, b: Bins, rows: seq<Row>, name: Name, counts: seq<nat>) {
    |counts| == Slots(b) && forall k | 0 <= k < |counts| :: counts[k] == |SlotRows(rt, b, rows, name, k)|
  }

  lemma CountsAreTheHistogram(rt: Runtime, b: Bins, rows: seq<Row>, name: Name, counts: seq<nat>)
    requires IsHistogram(rt, b, rows, name, counts)
    ensures Counts(rt, b, rows, name) == counts
  {
    forall k | 0 <= k < |counts| ensures Counts(rt, b, rows, name)[k] == counts[k] {
      CountIsASet(rows, InSlot(rt, b, name, k));
      assert Where(rows, InSlot(rt, b, name, k)) == SlotRows(rt, b, rows, name, k);
    }
  }

  // The rate of missing values; none for an empty dataset.
  ghost predicate IsMissingRate(rate: Option<real>, rows: seq<Row>, name: Name) {
    if rows == [] then rate.None? else rate == Some(|MissingRows(rows, name)| as real / |rows| as real)
  }

  // The reference holds something to make bins of.
  ghost predicate CanBeBinned(dtype: Dtype, reference: seq<Row>, name: Name) {
    dtype in {IntegerType, NumberType} ==> exists r | r in reference :: r(name) != Missing
  }

  lemma BinnedExactly(rt: Runtime, dtype: Dtype, reference: seq<Row>, name: Name)
    ensures D.FeatureBins(rt, dtype, reference, name) != Unbinned <==> CanBeBinned(dtype, reference, name)
  {
    var d := DomainOf(rt, IsNumeric(dtype), reference, name);
    DomainSpans(rt, IsNumeric(dtype), reference, name);
    if exists r | r in reference :: r(name) != Missing {
      var r :| r in reference && r(name) != Missing;
      assert Occurs(reference, name, r(name));
    } else {
      assert forall c :: !Occurs(reference, name, c);
    }
  }

  ghost predicate BothLarge(s: M.Spec, reference: seq<Row>, observed: seq<Row>) {
    |reference| >= s.minimumRows && |observed| >= s.minimumRows
  }

  /** A feature is reported with its rates of missing values and their distance; with an index exactly when
      both datasets have enough rows and the reference makes bins, which is that of the two histograms; and as
      drifted exactly if there are enough rows and the index or the distance is at its threshold or above. */
  lemma FeatureIsExact(rt: Runtime, s: M.Spec, reference: seq<Row>, observed: seq<Row>, name: Name, a: seq<nat>,
      b: seq<nat>)
    requires name in s.reference.columns
    requires var bins := D.FeatureBins(rt, s.reference.columns[name], reference, name);
             IsHistogram(rt, bins, reference, name, a) && IsHistogram(rt, bins, observed, name, b)
    ensures var f := D.FeatureOf(rt, s, reference, observed, name);
            && f.name == name && f.dtype == s.reference.columns[name]
            && IsMissingRate(f.referenceMissing, reference, name) && IsMissingRate(f.observedMissing, observed, name)
            && (f.missingChange.Some? <==> reference != [] && observed != [])
            && (f.missingChange.Some? ==>
                  && f.missingChange.value >= 0.0
                  && f.missingChange.value in {f.observedMissing.value - f.referenceMissing.value,
                                               f.referenceMissing.value - f.observedMissing.value})
            && (f.psi.Some? <==> BothLarge(s, reference, observed) && CanBeBinned(f.dtype, reference, name))
            && (f.psi.Some? ==> P.Psi(rt.ln, a, b) == Ok(f.psi.value))
            && (f.drifted <==>
                  && BothLarge(s, reference, observed)
                  && (|| (f.psi.Some? && f.psi.value >= s.psiThreshold)
                      || (f.missingChange.Some? && f.missingChange.value >= s.missingRateThreshold)))
            && (f.status == M.Drifted <==> f.drifted)
            && (f.status == M.Stable <==> !f.drifted && f.psi.Some?)
  {
    var bins := D.FeatureBins(rt, s.reference.columns[name], reference, name);
    CountsAreTheHistogram(rt, bins, reference, name, a);
    CountsAreTheHistogram(rt, bins, observed, name, b);
    MissingAreCounted(reference, name);
    MissingAreCounted(observed, name);
    BinnedExactly(rt, s.reference.columns[name], reference, name);
  }

  /******* Matching *******/

  /** For keys that are texts, a prediction is matched exactly if some row of the ground truth has its key. */
  lemma MatchedExactly(rt: Runtime, s: M.Spec, truthRows: seq<Row>, r: Row)
    requires r(s.entityKey).Text? && forall t | t in truthRows :: t(s.entityKey).Text?
    ensures Found(rt, s, TruthOf(rt, s, truthRows), r) <==>
              exists t | t in truthRows :: t(s.entityKey) == r(s.entityKey)
  {
    TruthKeys(rt, s, truthRows);
    if Found(rt, s, TruthOf(rt, s, truthRows), r) {
      var i :| 0 <= i < |truthRows| && Key(rt, s.entityKey, truthRows[i]) == Key(rt, s.entityKey, r);
      assert truthRows[i] in truthRows;
    }
    if t :| t in truthRows && t(s.entityKey) == r(s.entityKey) {
      var i :| 0 <= i < |truthRows| && truthRows[i] == t;
      assert Key(rt, s.entityKey, truthRows[i]) == Key(rt, s.entityKey, r);
    }
  }

  ghost function MatchedRows(rt: Runtime, s: M.Spec, truth: map<string, string>, rows: seq<Row>): set<int> {
    set i | 0 <= i < |rows| && Found(rt, s, truth, rows[i])
  }

  lemma {:induction false} MatchesAreCounted(rt: Runtime, s: M.Spec, truth: map<string, string>, rows: seq<Row>)
    ensures |Matches(rt, s, truth, rows)| == |MatchedRows(rt, s, truth, rows)|
  {
    if rows != [] {
      var last := |rows| - 1;
      MatchesAreCounted(rt, s, truth, rows[..last]);
      MatchedOneMore(rt, s, truth, rows[..last], rows[last]);
      assert rows == rows[..last] + [rows[last]];
    }
  }

  lemma MatchedOneMore(rt: Runtime, s: M.Spec, truth: map<string, string>, rows: seq<Row>, r: Row)
    ensures MatchedRows(rt, s, truth, rows + [r])
         == MatchedRows(rt, s, truth, rows) + if Found(rt, s, truth, r) then {|rows|} else {}
  {
    forall i ensures i in MatchedRows(rt, s, truth, rows + [r])
                <==> i in MatchedRows(rt, s, truth, rows) || (Found(rt, s, truth, r) && i == |rows|)
    {
      assert 0 <= i < |rows| ==> (rows + [r])[i] == rows[i];
    }
  }

  /** The numbers of rows matched and left over on either side, and the share of the predictions matched; and
      whether that is enough. */
  lemma PerformanceCountsAreExact(rt: Runtime, s: M.Spec, truthRows: seq<Row>, rows: seq<Row>)
    requires s.minimumRows >= 1
    ensures var m := F.Measured(rt, s, truthRows, rows);
            var matched := |MatchedRows(rt, s, TruthOf(rt, s, truthRows), rows)|;
            && m.task == s.task && m.matched == matched
            && m.matched + m.unmatchedPredictions == |rows| && m.matched + m.unmatchedTruth == |truthRows|
            && (if rows == [] then m.coverage.None? else m.coverage == Some(matched as real / |rows| as real))
            && (m.measured <==> matched >= s.minimumRows)
            && (s.task == M.Classification ==>
                  if m.measured
                  then var outcomes := Outcomes(rt, F.AllMatches(rt, s, truthRows, rows));
                       outcomes != [] && m.metrics == M.Rates(Some(C.Accuracy(outcomes)), Some(C.MacroF1(outcomes)))
                  else m.metrics == M.Rates(None, None))
  {
    MatchesAreCounted(rt, s, TruthOf(rt, s, truthRows), rows);
  }

  /** The label of a matched prediction is that of the one row with its key: texts are compared as they are,
      and numbers by what they are where they read back. */
  lemma ComparedAsTheyAre(rt: Runtime, s: M.Spec, truthRows: seq<Row>, i: nat, r: Row)
    requires TruthFits(rt, s, truthRows) && i < |truthRows|
    requires Key(rt, s.entityKey, r) == Key(rt, s.entityKey, truthRows[i])
    ensures var truth := TruthOf(rt, s, truthRows);
            && Found(rt, s, truth, r)
            && var m := Match(truth[Key(rt, s.entityKey, r)], r(s.prediction));
               match (truthRows[i](s.truth), r(s.prediction))
               case (Text(known), Text(answer)) => Outcome(rt, m) == C.Outcome(known, answer)
               case (Number(x), Number(y)) =>
                 && Outcome(rt, m) == C.Outcome(rt.show(x), rt.show(y))
                 && (rt.parse(rt.show(x)) == x ==> Point(rt, m) == G.Point(x, y))
               case _ => true
  {
    TruthIsTheRows(rt, s, truthRows, i);
  }

  /** Matches come in the order of their rows, each with the label its key has. */
  lemma {:induction false} MatchesAreTheRows(rt: Runtime, s: M.Spec, truth: map<string, string>, rows: seq<Row>)
    requires forall r | r in rows :: Found(rt, s, truth, r)
    ensures |Matches(rt, s, truth, rows)| == |rows|
    ensures forall i | 0 <= i < |rows| ::
              && Key(rt, s.entityKey, rows[i]) in truth
              && Matches(rt, s, truth, rows)[i] == Match(truth[Key(rt, s.entityKey, rows[i])], rows[i](s.prediction))
  {
    if rows != [] {
      MatchesAreTheRows(rt, s, truth, rows[..|rows| - 1]);
    }
  }

  /** A key fits exactly if it is there and has at most 1024 bytes; at most twenty labels are taken in. */
  lemma LimitsAreThese(rt: Runtime, s: M.Spec, c: Cell, matches: seq<Match>)
    ensures KeyFits(rt, c) <==>
              match c
              case Missing => false
              case Number(x) => rt.bytes(rt.show(x)) <= 1024
              case Text(t) => rt.bytes(t) <= 1024
    ensures FewLabels(rt, s, matches) <==> s.task == M.Regression || |C.LabelsOf(Outcomes(rt, matches))| <= 20
  {
  }
}
