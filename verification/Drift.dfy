/** Comparing the observed distribution of every feature with its reference. */
module Drift {
  import opened Wrappers
  import opened Batches
  import opened Tables
  import opened Counting
  import opened Monitoring
  import opened Histogram
  import G = Regression
  import P = Psi

  /******* What a feature's measurement is, by whole datasets *******/

  function FeatureBins(rt: Runtime, dtype: Dtype, reference: seq<Row>, name: Name): Bins {
    BinsOf(rt, DomainOf(rt, IsNumeric(dtype), reference, name))
  }

  function MissingRate(missing: nat, rows: nat): Option<real> {
    if rows == 0 then None else Some(missing as real / rows as real)
  }

  function Change(a: Option<real>, b: Option<real>): Option<real> {
    if a.Some? && b.Some? then Some(G.Abs(b.value - a.value)) else None
  }

  predicate Reaches(x: Option<real>, threshold: real) {
    x.Some? && x.value >= threshold
  }

  predicate Enough(s: Spec, referenceRows: int, observedRows: int) {
    (if referenceRows < observedRows then referenceRows else observedRows) >= s.minimumRows
  }

  // From the counts of one feature in both datasets, with the rows and the missing values of each.
  function Measure(rt: Runtime, s: Spec, name: Name, dtype: Dtype, b: Bins, counts: (seq<nat>, seq<nat>),
      missing: (nat, nat), rows: (nat, nat)): Feature
    requires |counts.0| == |counts.1| == Slots(b)
  {
    var enough := Enough(s, rows.0, rows.1);
    var referenceMissing, observedMissing := MissingRate(missing.0, rows.0), MissingRate(missing.1, rows.1);
    var change := Change(referenceMissing, observedMissing);
    var psi := if enough && b != Unbinned then Some(P.Psi(rt.ln, counts.0, counts.1).value) else None;
    var drifted := enough && (Reaches(psi, s.psiThreshold) || Reaches(change, s.missingRateThreshold));
    var status := if drifted then Drifted else if enough && psi.Some? then Stable else Insufficient;
    Feature(name, dtype, psi, referenceMissing, observedMissing, change, drifted, status)
  }

  function FeatureOf(rt: Runtime, s: Spec, reference: seq<Row>, observed: seq<Row>, name: Name): Feature
    requires name in s.reference.columns
  {
    var dtype := s.reference.columns[name];
    var b := FeatureBins(rt, dtype, reference, name);
    Measure(rt, s, name, dtype, b, (Counts(rt, b, reference, name), Counts(rt, b, observed, name)),
            (CountIf(reference, IsMissing(name)), CountIf(observed, IsMissing(name))), (|reference|, |observed|))
  }

  predicate HasColumns(s: Spec) {
    forall i | 0 <= i < |s.features| :: s.features[i] in s.reference.columns
  }

  /******* The passes over the files *******/

  method WidenBatch(rt: Runtime, numeric: bool, domain: Domain, batch: seq<Row>, name: Name, ghost earlier: seq<Row>)
    returns (wider: Domain)
    requires domain == DomainOf(rt, numeric, earlier, name)
    ensures wider == DomainOf(rt, numeric, earlier + batch, name)
  {
    wider := domain;
    assert earlier + batch[..0] == earlier;
    for i := 0 to |batch|
      invariant wider == DomainOf(rt, numeric, earlier + batch[..i], name)
    {
      wider := Widen(rt, wider, batch[i](name));
      assert earlier + batch[..i + 1] == (earlier + batch[..i]) + [batch[i]];
      assert (earlier + batch[..i + 1])[..|earlier| + i] == earlier + batch[..i];
    }
    assert batch[..|batch|] == batch;
  }

  function FeatureDomain(rt: Runtime, s: Spec, rows: seq<Row>, f: nat): Domain
    requires HasColumns(s) && f < |s.features|
  {
    DomainOf(rt, IsNumeric(s.reference.columns[s.features[f]]), rows, s.features[f])
  }

  predicate AllFit(rt: Runtime, s: Spec, reference: seq<Row>)
    requires HasColumns(s)
  {
    forall f | 0 <= f < |s.features| :: DomainFits(rt, FeatureDomain(rt, s, reference, f))
  }

  ghost predicate AreDomains(rt: Runtime, s: Spec, reference: seq<Row>, domains: seq<Domain>)
    requires HasColumns(s)
  {
    |domains| == |s.features| && forall f | 0 <= f < |domains| :: domains[f] == FeatureDomain(rt, s, reference, f)
  }

  // Too large already in the middle is too large at the end.
  lemma TooLargeStays(rt: Runtime, s: Spec, file: File, k: nat, f: nat)
    requires HasColumns(s) && f < |s.features| && k <= |file|
    requires !DomainFits(rt, FeatureDomain(rt, s, Rows(file[..k]), f))
    ensures !DomainFits(rt, FeatureDomain(rt, s, Rows(file), f))
  {
    RowsPrefix(file, k);
    if DomainFits(rt, FeatureDomain(rt, s, Rows(file), f)) {
      SmallerFits(rt, IsNumeric(s.reference.columns[s.features[f]]), Rows(file), |Rows(file[..k])|, s.features[f]);
    }
  }

  // The first pass: the domains of all features, given up as soon as one is too large.
  method ReadDomains(rt: Runtime, s: Spec, file: File) returns (out: Option<seq<Domain>>)
    requires HasColumns(s)
    ensures out.Some? <==> AllFit(rt, s, Rows(file))
    ensures out.Some? ==> AreDomains(rt, s, Rows(file), out.value)
  {
    var n := |s.features|;
    var domains := seq(n, f requires 0 <= f < n => Nothing(IsNumeric(s.reference.columns[s.features[f]])));
    RowsOfAll(file);
    for k := 0 to |file|
      invariant |domains| == n
      invariant forall f | 0 <= f < n :: domains[f] == FeatureDomain(rt, s, Rows(file[..k]), f)
      invariant forall f | 0 <= f < n :: DomainFits(rt, domains[f])
    {
      RowsOneMore(file, k);
      for f := 0 to n
        invariant |domains| == n
        invariant forall g | 0 <= g < n ::
                    domains[g] == FeatureDomain(rt, s, if g < f then Rows(file[..k + 1]) else Rows(file[..k]), g)
        invariant forall g | 0 <= g < n :: DomainFits(rt, domains[g])
      {
        var name := s.features[f];
        var wider := WidenBatch(rt, IsNumeric(s.reference.columns[name]), domains[f], file[k], name, Rows(file[..k]));
        if !DomainFits(rt, wider) {
          TooLargeStays(rt, s, file, k + 1, f);
          return None;
        }
        domains := domains[f := wider];
      }
    }
    return Some(domains);
  }

  method TallyBatch(rt: Runtime, b: Bins, counts: seq<nat>, batch: seq<Row>, name: Name, ghost earlier: seq<Row>)
    returns (more: seq<nat>, missing: nat)
    requires BinsAreSound(b) && counts == Counts(rt, b, earlier, name)
    ensures more == Counts(rt, b, earlier + batch, name)
    ensures missing == CountIf(batch, IsMissing(name))
  {
    more, missing := counts, 0;
    assert earlier + batch[..0] == earlier;
    for i := 0 to |batch|
      invariant more == Counts(rt, b, earlier + batch[..i], name)
      invariant missing == CountIf(batch[..i], IsMissing(name))
    {
      var c := batch[i](name);
      CountsOneMore(rt, b, earlier + batch[..i], batch[i], name);
      OneMore(batch[..i], batch[i], IsMissing(name), (r: Row) => 0.0);
      assert earlier + batch[..i + 1] == (earlier + batch[..i]) + [batch[i]];
      assert batch[..i + 1] == batch[..i] + [batch[i]];
      more := Bump(more, Slot(rt, b, c));
      missing := missing + if c == Missing then 1 else 0;
    }
    assert batch[..|batch|] == batch;
  }

  // What the second pass knows of feature f.
  ghost predicate Tallied(rt: Runtime, s: Spec, bins: seq<Bins>, rows: seq<Row>, f: nat, counts: seq<nat>, missing: nat)
    requires f < |s.features| == |bins|
  {
    && counts == Counts(rt, bins[f], rows, s.features[f])
    && missing == CountIf(rows, IsMissing(s.features[f]))
  }

  // The second pass, over either file.
  method CountFile(rt: Runtime, s: Spec, bins: seq<Bins>, file: File)
    returns (counts: seq<seq<nat>>, missing: seq<nat>, total: nat)
    requires |bins| == |s.features| && forall f | 0 <= f < |bins| :: BinsAreSound(bins[f])
    ensures total == |Rows(file)| && AllTallied(rt, s, bins, Rows(file), counts, missing)
  {
    var n := |bins|;
    counts := seq(n, f requires 0 <= f < n => seq(Slots(bins[f]), i => 0));
    missing, total := seq(n, f => 0), 0;
    RowsOfAll(file);
    forall f | 0 <= f < n ensures counts[f] == Counts(rt, bins[f], [], s.features[f]) {}
    for k := 0 to |file|
      invariant total == |Rows(file[..k])| && |counts| == |missing| == n
      invariant forall f | 0 <= f < n :: Tallied(rt, s, bins, Rows(file[..k]), f, counts[f], missing[f])
    {
      RowsOneMore(file, k);
      total := total + |file[k]|;
      for f := 0 to n
        invariant |counts| == |missing| == n
        invariant forall g | 0 <= g < n ::
                    var rows := if g < f then Rows(file[..k + 1]) else Rows(file[..k]);
                    Tallied(rt, s, bins, rows, g, counts[g], missing[g])
      {
        ghost var earlier := Rows(file[..k]);
        var more, absent := TallyBatch(rt, bins[f], counts[f], file[k], s.features[f], earlier);
        Joined(earlier, file[k], IsMissing(s.features[f]), (r: Row) => 0.0);
        counts, missing := counts[f := more], missing[f := missing[f] + absent];
      }
    }
  }

  datatype Comparison = Comparison(features: seq<Feature>, referenceRows: nat, observedRows: nat)

  predicate Accepted(rt: Runtime, s: Spec, reference: File, observed: File)
    requires HasColumns(s)
  {
    && Readable(reference, s.maxRows, s.reference.rowCount)
    && Readable(observed, s.maxRows, s.observed.rowCount)
    && AllFit(rt, s, Rows(reference))
  }

  /** What is reported about each feature is a function of the two whole datasets, however their files
      are cut into batches. */
  method Compare(rt: Runtime, s: Spec, reference: File, observed: File) returns (out: Result<Comparison>)
    requires Faithful(rt) && HasColumns(s) && 0 <= s.maxRows
    ensures out.Ok? <==> Accepted(rt, s, reference, observed)
    ensures out.Err? ==> out.error == InvalidArgument
    ensures out.Ok? ==>
              && out.value.referenceRows == |Rows(reference)| && out.value.observedRows == |Rows(observed)|
              && AreFeatures(rt, s, Rows(reference), Rows(observed), out.value.features)
  {
    var readable := Frames(reference, s.maxRows, s.reference.rowCount);
    if !readable {
      return Err(InvalidArgument);
    }
    var domains := ReadDomains(rt, s, reference);
    if domains.None? {
      return Err(InvalidArgument);
    }
    readable := Frames(observed, s.maxRows, s.observed.rowCount);
    if !readable {
      return Err(InvalidArgument);
    }
    var bins := BinAll(rt, s, Rows(reference), domains.value);
    var referenceCounts, referenceMissing, referenceRows := CountFile(rt, s, bins, reference);
    var observedCounts, observedMissing, observedRows := CountFile(rt, s, bins, observed);
    var features := MeasureAll(rt, s, bins, Rows(reference), Rows(observed), (referenceCounts, observedCounts),
        (referenceMissing, observedMissing),
                               (referenceRows, observedRows));
    return Ok(Comparison(features, referenceRows, observedRows));
  }

  // The tallies of every feature over some rows.
  ghost predicate AllTallied(rt: Runtime, s: Spec, bins: seq<Bins>, rows: seq<Row>, counts: seq<seq<nat>>,
      missing: seq<nat>) {
    && |bins| == |s.features| == |counts| == |missing|
    && forall f | 0 <= f < |bins| :: Tallied(rt, s, bins, rows, f, counts[f], missing[f])
  }

  method MeasureAll(
    rt: Runtime, s: Spec, bins: seq<Bins>, ghost reference: seq<Row>, ghost observed: seq<Row>,
    counts: (seq<seq<nat>>, seq<seq<nat>>), missing: (seq<nat>, seq<nat>),
    rows: (nat, nat)) returns (features: seq<Feature>)
    requires HasColumns(s) && AreBins(rt, s, reference, bins) && rows == (|reference|, |observed|)
    requires AllTallied(rt, s, bins, reference, counts.0, missing.0)
    requires AllTallied(rt, s, bins, observed, counts.1, missing.1)
    ensures AreFeatures(rt, s, reference, observed, features)
  {
    features := [];
    for f := 0 to |s.features|
      invariant |features| == f
      invariant forall g | 0 <= g < f :: features[g] == FeatureOf(rt, s, reference, observed, s.features[g])
    {
      var name := s.features[f];
      MeasuredFromTallies(rt, s, bins, reference, observed, f, (counts.0[f], counts.1[f]),
          (missing.0[f], missing.1[f]));
      features := features
        + [Measure(rt, s, name, s.reference.columns[name], bins[f], (counts.0[f], counts.1[f]),
            (missing.0[f], missing.1[f]), rows)];
    }
  }

  // The measurement of every feature, in the order asked for.
  ghost predicate AreFeatures(rt: Runtime, s: Spec, reference: seq<Row>, observed: seq<Row>, features: seq<Feature>)
    requires HasColumns(s)
  {
    && |features| == |s.features|
    && forall f | 0 <= f < |s.features| :: features[f] == FeatureOf(rt, s, reference, observed, s.features[f])
  }

  // The bins of every feature, from the reference alone.
  ghost predicate AreBins(rt: Runtime, s: Spec, reference: seq<Row>, bins: seq<Bins>)
    requires HasColumns(s)
  {
    && |bins| == |s.features|
    && forall f | 0 <= f < |bins| :: bins[f] == BinsOf(rt, FeatureDomain(rt, s, reference, f)) && BinsAreSound(bins[f])
  }

  method BinAll(rt: Runtime, s: Spec, ghost reference: seq<Row>, domains: seq<Domain>) returns (bins: seq<Bins>)
    requires Faithful(rt) && HasColumns(s)
    requires AreDomains(rt, s, reference, domains)
    ensures AreBins(rt, s, reference, bins)
  {
    bins := [];
    for f := 0 to |domains|
      invariant |bins| == f
      invariant forall g | 0 <= g < f ::
                  bins[g] == BinsOf(rt, FeatureDomain(rt, s, reference, g)) && BinsAreSound(bins[g])
    {
      FeatureBinsAreSound(rt, s, reference, f);
      bins := bins + [BinsOf(rt, domains[f])];
    }
  }

  lemma MeasuredFromTallies(rt: Runtime, s: Spec, bins: seq<Bins>, reference: seq<Row>, observed: seq<Row>, f: nat,
      counts: (seq<nat>, seq<nat>), missing: (nat, nat))
    requires HasColumns(s) && f < |s.features| && AreBins(rt, s, reference, bins)
    requires Tallied(rt, s, bins, reference, f, counts.0, missing.0)
    requires Tallied(rt, s, bins, observed, f, counts.1, missing.1)
    ensures var name := s.features[f];
            Measure(rt, s, name, s.reference.columns[name], bins[f], counts, missing, (|reference|, |observed|))
            == FeatureOf(rt, s, reference, observed, name)
  {
  }

  lemma FeatureBinsAreSound(rt: Runtime, s: Spec, reference: seq<Row>, f: nat)
    requires Faithful(rt) && HasColumns(s) && f < |s.features|
    ensures BinsAreSound(BinsOf(rt, FeatureDomain(rt, s, reference, f)))
  {
    var numeric := IsNumeric(s.reference.columns[s.features[f]]);
    DomainSpans(rt, numeric, reference, s.features[f]);
    BinsAreAlwaysSound(rt, FeatureDomain(rt, s, reference, f));
  }

  /******* What a measurement can be *******/

  lemma RateIsRate(missing: nat, rows: nat)
    requires missing <= rows
    ensures IsRate(MissingRate(missing, rows))
  {
    if rows > 0 {
      var x, y := missing as real, rows as real;
      var q := x / y;
      assert q * y == x;
      P.Sign(q, y);
      assert (1.0 - q) * y == y - q * y;
      P.Sign(1.0 - q, y);
    }
  }

  /** An index is never negative, rates and their change are between zero and one, and the thresholds
      decide: a feature has drifted exactly when one of them is reached with enough rows, and is stable
      exactly when it has not and there was an index to judge it by. */
  lemma FeatureIsSound(rt: Runtime, s: Spec, reference: seq<Row>, observed: seq<Row>, name: Name)
    requires Faithful(rt) && name in s.reference.columns
    ensures var f := FeatureOf(rt, s, reference, observed, name);
            && (f.psi.Some? ==> f.psi.value >= 0.0)
            && IsRate(f.referenceMissing) && IsRate(f.observedMissing) && IsRate(f.missingChange)
            && (f.referenceMissing.None? <==> reference == []) && (f.observedMissing.None? <==> observed == [])
            && (f.status == Drifted <==> f.drifted)
            && var enough := Enough(s, |reference|, |observed|);
               && (f.status == Drifted <==>
                    enough && (Reaches(f.psi, s.psiThreshold) || Reaches(f.missingChange, s.missingRateThreshold)))
               && (f.status == Stable <==>
                     enough && f.psi.Some? && !Reaches(f.psi, s.psiThreshold)
                       && !Reaches(f.missingChange, s.missingRateThreshold))
  {
    RateIsRate(CountIf(reference, IsMissing(name)), |reference|);
    RateIsRate(CountIf(observed, IsMissing(name)), |observed|);
    var b := FeatureBins(rt, s.reference.columns[name], reference, name);
    P.PsiIsADivergence(rt.ln, Counts(rt, b, reference, name), Counts(rt, b, observed, name));
  }

  /** The order of the rows of either dataset changes nothing. */
  lemma FeatureIgnoresOrder(rt: Runtime, s: Spec, reference: seq<Row>, observed: seq<Row>, r: seq<Row>, o: seq<Row>,
      name: Name)
    requires name in s.reference.columns && Permuted(reference, r) && Permuted(observed, o)
    ensures FeatureOf(rt, s, reference, observed, name) == FeatureOf(rt, s, r, o, name)
  {
    var dtype := s.reference.columns[name];
    DomainPermutes(rt, IsNumeric(dtype), reference, r, name);
    var b := FeatureBins(rt, dtype, reference, name);
    CountsPermute(rt, b, reference, r, name);
    CountsPermute(rt, b, observed, o, name);
    PermutedAgree(reference, r, IsMissing(name), (q: Row) => 0.0);
    PermutedAgree(observed, o, IsMissing(name), (q: Row) => 0.0);
  }

  /** A dataset has not drifted from itself, in whatever order its rows come. */
  lemma NoDriftFromItself(rt: Runtime, s: Spec, reference: seq<Row>, observed: seq<Row>, name: Name)
    requires Faithful(rt) && WithinBounds(s) && name in s.reference.columns && Permuted(reference, observed)
    ensures !FeatureOf(rt, s, reference, observed, name).drifted
  {
    FeatureIgnoresOrder(rt, s, reference, observed, reference, reference, name);
    var b := FeatureBins(rt, s.reference.columns[name], reference, name);
    var counts := Counts(rt, b, reference, name);
    P.ZeroMeansEqualCounts(rt.ln, counts, counts);
  }
}
