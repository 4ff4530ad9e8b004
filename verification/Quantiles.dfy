/** Latency quantiles from the difference of two cumulative histograms. */
module Quantiles {
  import opened Wrappers

  // An upper boundary in seconds; the last bucket has none.
  datatype Boundary = Upto(le: real) | Infinite

  datatype Kind = Bucket(le: Boundary) | Count | Sum

  // A time series with its value at both scrapes; `id` are its labels.
  datatype Sample = Sample(id: nat, kind: Kind, value: real)

  // The buckets in the order of their boundaries, with the observations up to each.
  datatype Bar = Bar(le: Boundary, upto: real)

  predicate Before(a: Boundary, b: Boundary) {
    a.Upto? && (b.Infinite? || a.le < b.le)
  }

  ghost predicate Sorted(bars: seq<Bar>) {
    forall i, j | 0 <= i < j < |bars| :: Before(bars[i].le, bars[j].le)
  }

  // Adds to the bucket with a boundary, keeping the order.
  function AddTo(bars: seq<Bar>, le: Boundary, n: real): seq<Bar> {
    if bars == [] then [Bar(le, n)]
    else if bars[0].le == le then [Bar(le, bars[0].upto + n)] + bars[1..]
    else if Before(le, bars[0].le) then [Bar(le, n)] + bars
    else [bars[0]] + AddTo(bars[1..], le, n)
  }

  function UptoBoundary(bars: seq<Bar>, le: Boundary): Option<real> {
    if bars == [] then None
    else if bars[0].le == le then Some(bars[0].upto)
    else UptoBoundary(bars[1..], le)
  }

  lemma {:induction false} AddToKeepsOrder(bars: seq<Bar>, le: Boundary, n: real)
    requires Sorted(bars)
    ensures Sorted(AddTo(bars, le, n))
    ensures forall b | b in AddTo(bars, le, n) :: b.le == le || exists c :: c in bars && c.le == b.le
  {
    if bars != [] && bars[0].le != le && !Before(le, bars[0].le) {
      AddToKeepsOrder(bars[1..], le, n);
      var rest := AddTo(bars[1..], le, n);
      forall j | 0 <= j < |rest| ensures Before(bars[0].le, rest[j].le) {
        assert rest[j] in rest;
      }
    }
  }

  // What a boundary counts, nothing if it is absent.
  function CountedAt(bars: seq<Bar>, le: Boundary): real {
    if UptoBoundary(bars, le).Some? then UptoBoundary(bars, le).value else 0.0
  }

  lemma {:induction false} AddToAdds(bars: seq<Bar>, le: Boundary, n: real, other: Boundary)
    requires Sorted(bars)
    ensures CountedAt(AddTo(bars, le, n), other) == CountedAt(bars, other) + if other == le then n else 0.0
  {
    var more := AddTo(bars, le, n);
    if bars == [] {
      assert more[1..] == [];
    } else if bars[0].le == le {
      assert more[1..] == bars[1..];
    } else if Before(le, bars[0].le) {
      assert more[1..] == bars;
      AbsentBefore(bars, le);
    } else {
      assert more[1..] == AddTo(bars[1..], le, n);
      AddToAdds(bars[1..], le, n, other);
    }
  }

  lemma {:induction false} AbsentBefore(bars: seq<Bar>, le: Boundary)
    requires Sorted(bars) && (bars != [] ==> Before(le, bars[0].le))
    ensures UptoBoundary(bars, le).None?
  {
    if bars != [] {
      if |bars| > 1 {
        assert Before(bars[0].le, bars[1].le);
      }
      AbsentBefore(bars[1..], le);
    }
  }

  /******* The difference of two scrapes *******/

  function Old(before: seq<Sample>, id: nat): real {
    if before == [] then 0.0
    else if before[|before| - 1].id == id then before[|before| - 1].value
    else Old(before[..|before| - 1], id)
  }

  datatype Delta = Delta(bars: seq<Bar>, count: real, sum: real)

  // The first n series of the later scrape, less the earlier one; None after a counter reset.
  function DeltaOf(before: seq<Sample>, after: seq<Sample>, n: nat): Option<Delta>
    requires n <= |after|
  {
    if n == 0 then Some(Delta([], 0.0, 0.0))
    else
      var earlier := DeltaOf(before, after, n - 1);
      var value := after[n - 1].value - Old(before, after[n - 1].id);
      if earlier.None? || value < 0.0 then None
      else
        var d := earlier.value;
        match after[n - 1].kind
        case Bucket(le) => Some(d.(bars := AddTo(d.bars, le, value)))
        case Count => Some(d.(count := d.count + value))
        case Sum => Some(d.(sum := d.sum + value))
  }

  lemma {:induction false} DeltaIsSorted(before: seq<Sample>, after: seq<Sample>, n: nat)
    requires n <= |after|
    ensures DeltaOf(before, after, n).Some? ==>
              Sorted(DeltaOf(before, after, n).value.bars) && DeltaOf(before, after, n).value.count >= 0.0
  {
    if n > 0 {
      DeltaIsSorted(before, after, n - 1);
      if DeltaOf(before, after, n).Some? && after[n - 1].kind.Bucket? {
        AddToKeepsOrder(DeltaOf(before, after, n - 1).value.bars, after[n - 1].kind.le,
            after[n - 1].value - Old(before, after[n - 1].id));
      }
    }
  }

  // The last sample with these labels.
  ghost predicate IsLast(samples: seq<Sample>, id: nat, i: nat) {
    && i < |samples| && samples[i].id == id
    && forall k | i < k < |samples| :: samples[k].id != id
  }

  /** A series is compared with the last sample before that has its labels, or with nothing. */
  lemma {:induction false} OldIsTheLast(before: seq<Sample>, id: nat, i: nat)
    ensures IsLast(before, id, i) ==> Old(before, id) == before[i].value
    ensures (forall k | 0 <= k < |before| :: before[k].id != id) ==> Old(before, id) == 0.0
  {
    if before != [] {
      OldIsTheLast(before[..|before| - 1], id, i);
    }
  }

  // What the first n series of a kind grew by together.
  ghost function Added(before: seq<Sample>, after: seq<Sample>, n: nat, kind: Kind): real
    requires n <= |after|
  {
    if n == 0 then 0.0
    else
      Added(before, after, n - 1, kind)
      + if after[n - 1].kind == kind then after[n - 1].value - Old(before, after[n - 1].id) else 0.0
  }

  /** The difference adds up what the series of each kind and boundary grew by; there is none exactly if one of
      them went back. */
  lemma {:induction false} DeltaIsExact(before: seq<Sample>, after: seq<Sample>, n: nat, le: Boundary)
    requires n <= |after|
    ensures DeltaOf(before, after, n).Some? <==> forall i | 0 <= i < n :: after[i].value >= Old(before, after[i].id)
    ensures DeltaOf(before, after, n).Some? ==>
              var d := DeltaOf(before, after, n).value;
              && d.count == Added(before, after, n, Count) && d.sum == Added(before, after, n, Sum)
              && CountedAt(d.bars, le) == Added(before, after, n, Bucket(le))
  {
    if n > 0 {
      DeltaIsExact(before, after, n - 1, le);
      DeltaIsSorted(before, after, n - 1);
      var earlier := DeltaOf(before, after, n - 1);
      if earlier.Some? && after[n - 1].kind.Bucket? {
        AddToAdds(earlier.value.bars, after[n - 1].kind.le, after[n - 1].value - Old(before, after[n - 1].id), le);
      }
    }
  }

  lemma {:induction false} ResetStays(before: seq<Sample>, after: seq<Sample>, k: nat, n: nat)
    requires k <= n <= |after| && DeltaOf(before, after, k).None?
    ensures DeltaOf(before, after, n).None?
  {
    if k < n { ResetStays(before, after, k, n - 1); }
  }

  /******* Quantiles *******/

  // Where the bucket i starts.
  function Lower(bars: seq<Bar>, i: nat): real
    requires i <= |bars|
  {
    if i == 0 || bars[i - 1].le.Infinite? then 0.0 else bars[i - 1].le.le
  }

  // How many observations come before bucket i.
  function Below(bars: seq<Bar>, i: nat): real
    requires i <= |bars|
  {
    if i == 0 then 0.0 else bars[i - 1].upto
  }

  // In proportion between the ends of a bucket; without an upper boundary, where the bucket starts.
  function Interpolate(lo: real, below: real, bar: Bar, rank: real): real {
    if bar.le.Upto? && bar.upto > below then lo + (bar.le.le - lo) * (rank - below) / (bar.upto - below) else lo
  }

  function Within(bars: seq<Bar>, i: nat, rank: real): real
    requires i < |bars|
  {
    Interpolate(Lower(bars, i), Below(bars, i), bars[i], rank)
  }

  // The bucket that holds a rank: the first that reaches it.
  ghost predicate Holds(bars: seq<Bar>, i: nat, rank: real) {
    && i < |bars| && bars[i].upto >= rank
    && (forall k | 0 <= k < i :: bars[k].upto < rank)
    && (forall k {:trigger Below(bars, k)} | 0 <= k <= i :: Below(bars, k) <= bars[k].upto)
  }

  // Boundaries that make sense for durations.
  ghost predicate Nonnegative(bars: seq<Bar>) {
    forall i | 0 <= i < |bars| && bars[i].le.Upto? :: bars[i].le.le >= 0.0
  }

  lemma Proportion(lo: real, hi: real, x: real, y: real)
    requires lo <= hi && 0.0 <= x <= y && y > 0.0
    ensures lo <= lo + (hi - lo) * x / y <= hi
  {
    var w, q := hi - lo, (hi - lo) * x / y;
    assert q * y == w * x;
    Product(w, x);
    Product(w, y - x);
    assert w * y - w * x == w * (y - x);
    assert (w - q) * y == w * y - q * y;
    Quotient(q, y);
    Quotient(w - q, y);
  }

  lemma Product(x: real, y: real)
    requires x >= 0.0 && y >= 0.0
    ensures x * y >= 0.0
  {
  }

  lemma Quotient(q: real, y: real)
    requires y > 0.0 && q * y >= 0.0
    ensures q >= 0.0
  {
  }

  // A later share of the same bucket is not smaller.
  lemma ProportionGrows(lo: real, hi: real, x: real, z: real, y: real)
    requires lo <= hi && x <= z && y > 0.0
    ensures lo + (hi - lo) * x / y <= lo + (hi - lo) * z / y
  {
    var w := hi - lo;
    var p, q := w * x / y, w * z / y;
    assert p * y == w * x && q * y == w * z;
    Product(w, z - x);
    assert w * (z - x) == w * z - w * x;
    assert (q - p) * y == q * y - p * y;
    Quotient(q - p, y);
  }

  lemma InterpolatedInside(lo: real, below: real, bar: Bar, rank: real)
    requires below <= rank <= bar.upto && (bar.le.Upto? ==> lo <= bar.le.le)
    ensures lo <= Interpolate(lo, below, bar, rank)
    ensures bar.le.Upto? ==> Interpolate(lo, below, bar, rank) <= bar.le.le
  {
    if bar.le.Upto? && bar.upto > below {
      Proportion(lo, bar.le.le, rank - below, bar.upto - below);
    }
  }

  lemma InterpolatedAscends(lo: real, below: real, bar: Bar, r: real, s: real)
    requires r <= s && (bar.le.Upto? ==> lo <= bar.le.le)
    ensures Interpolate(lo, below, bar, r) <= Interpolate(lo, below, bar, s)
  {
    if bar.le.Upto? && bar.upto > below {
      ProportionGrows(lo, bar.le.le, r - below, s - below, bar.upto - below);
    }
  }

  lemma BucketIsOrdered(bars: seq<Bar>, i: nat)
    requires Sorted(bars) && Nonnegative(bars) && i < |bars|
    ensures bars[i].le.Upto? ==> Lower(bars, i) <= bars[i].le.le
  {
    if i > 0 {
      assert Before(bars[i - 1].le, bars[i].le);
    }
  }

  lemma RankIsInBucket(bars: seq<Bar>, i: nat, rank: real)
    requires Holds(bars, i, rank) && rank >= 0.0
    ensures Below(bars, i) <= rank <= bars[i].upto
  {
    if i > 0 {
      assert bars[i - 1].upto < rank;
    }
  }

  /** A quantile lies in the bucket that holds its rank; in the last one, at its lower end. */
  lemma QuantileIsInside(bars: seq<Bar>, i: nat, rank: real)
    requires Sorted(bars) && Nonnegative(bars) && Holds(bars, i, rank) && rank >= 0.0
    ensures Lower(bars, i) <= Within(bars, i, rank)
    ensures bars[i].le.Upto? ==> Within(bars, i, rank) <= bars[i].le.le
    ensures bars[i].le.Infinite? ==> Within(bars, i, rank) == Lower(bars, i)
  {
    BucketIsOrdered(bars, i);
    RankIsInBucket(bars, i, rank);
    InterpolatedInside(Lower(bars, i), Below(bars, i), bars[i], rank);
  }

  /** Within its bucket a quantile is as far along as its rank is among the observations there; a bucket without
      an upper end, or without observations, gives its lower end. */
  lemma QuantileIsProportional(bars: seq<Bar>, i: nat, rank: real)
    requires i < |bars|
    ensures var lo := if i > 0 && bars[i - 1].le.Upto? then bars[i - 1].le.le else 0.0;
            var below := if i > 0 then bars[i - 1].upto else 0.0;
            var x := Within(bars, i, rank);
            if bars[i].le.Upto? && bars[i].upto > below
            then (x - lo) * (bars[i].upto - below) == (bars[i].le.le - lo) * (rank - below)
            else x == lo
  {
    var below := if i > 0 then bars[i - 1].upto else 0.0;
    if bars[i].le.Upto? && bars[i].upto > below {
      var lo, hi := Lower(bars, i), bars[i].le.le;
      var part := (hi - lo) * (rank - below) / (bars[i].upto - below);
      assert part * (bars[i].upto - below) == (hi - lo) * (rank - below);
    }
  }

  lemma HoldersAscend(bars: seq<Bar>, i: nat, j: nat, r: real, s: real)
    requires Holds(bars, i, r) && Holds(bars, j, s) && r <= s
    ensures i <= j
  {
  }

  /** A greater rank never has a smaller quantile. */
  lemma QuantilesAscend(bars: seq<Bar>, i: nat, j: nat, r: real, s: real)
    requires Sorted(bars) && Nonnegative(bars) && Holds(bars, i, r) && Holds(bars, j, s) && 0.0 <= r <= s
    ensures i <= j && Within(bars, i, r) <= Within(bars, j, s)
  {
    HoldersAscend(bars, i, j, r, s);
    if i == j {
      BucketIsOrdered(bars, i);
      InterpolatedAscends(Lower(bars, i), Below(bars, i), bars[i], r, s);
    } else {
      QuantileIsInside(bars, i, r);
      QuantileIsInside(bars, j, s);
      LowersAscend(bars, i, j);
    }
  }

  // A bucket starts no earlier than an earlier one ends.
  lemma LowersAscend(bars: seq<Bar>, i: nat, j: nat)
    requires Sorted(bars) && i < j < |bars|
    ensures bars[i].le.Upto? && bars[i].le.le <= Lower(bars, j)
  {
    assert Before(bars[i].le, bars[j].le);
    if i < j - 1 { assert Before(bars[i].le, bars[j - 1].le); }
    assert Before(bars[j - 1].le, bars[j].le);
  }

  // Finds the first bucket that reaches a rank, unless the counts go down on the way.
  method FindQuantile(bars: seq<Bar>, rank: real) returns (out: Result<Option<real>>)
    requires Sorted(bars) && 0.0 <= rank
    ensures out.Ok? && out.value.Some? ==>
              exists i: nat :: Holds(bars, i, rank) && out.value.value == Within(bars, i, rank)
    ensures out.Ok? && out.value.None? ==> forall k | 0 <= k < |bars| :: bars[k].upto < rank
    ensures out.Err? ==> !Monotone(bars)
  {
    for i := 0 to |bars|
      invariant forall k | 0 <= k < i :: bars[k].upto < rank
      invariant forall k {:trigger Below(bars, k)} | 0 <= k < i :: Below(bars, k) <= bars[k].upto
    {
      if bars[i].upto < Below(bars, i) {
        return Err(InvalidArgument);
      }
      if bars[i].upto >= rank {
        assert Holds(bars, i, rank);
        return Ok(Some(Within(bars, i, rank)));
      }
    }
    return Ok(None);
  }

  datatype Summary = Summary(observations: real, mean: real, p50: Option<real>, p95: Option<real>, p99: Option<real>)

  ghost predicate IsQuantile(bars: seq<Bar>, rank: real, x: Option<real>) {
    exists i: nat :: Holds(bars, i, rank) && x == Some(Within(bars, i, rank) * 1000.0)
  }

  lemma ReachedByAll(bars: seq<Bar>, count: real, share: real)
    requires UptoBoundary(bars, Infinite) == Some(count) && count > 0.0 && 0.0 <= share <= 1.0
    ensures share * count <= count && share * count >= 0.0
    ensures exists k | 0 <= k < |bars| :: bars[k].upto >= share * count
  {
    Product(share, count);
    Product(1.0 - share, count);
    assert (1.0 - share) * count == count - share * count;
    var k := IndexOf(bars, Infinite);
    assert bars[k].upto >= share * count;
  }

  lemma {:induction false} IndexOf(bars: seq<Bar>, le: Boundary) returns (k: nat)
    requires UptoBoundary(bars, le).Some?
    ensures k < |bars| && bars[k].le == le && bars[k].upto == UptoBoundary(bars, le).value
  {
    if bars[0].le == le {
      k := 0;
    } else {
      k := IndexOf(bars[1..], le);
      k := k + 1;
    }
  }

  // No counter went back, there are observations, all of them are counted, and the counts never go down.
  ghost predicate WellFormed(before: seq<Sample>, after: seq<Sample>) {
    var delta := DeltaOf(before, after, |after|);
    && delta.Some? && delta.value.count != 0.0
    && UptoBoundary(delta.value.bars, Infinite) == Some(delta.value.count)
    && Monotone(delta.value.bars)
  }

  ghost predicate Monotone(bars: seq<Bar>) {
    forall k {:trigger Below(bars, k)} | 0 <= k < |bars| :: Below(bars, k) <= bars[k].upto
  }

  // The median and the two high quantiles of all that was observed.
  ghost predicate HasQuantiles(bars: seq<Bar>, s: Summary) {
    && IsQuantile(bars, 0.5 * s.observations, s.p50)
    && IsQuantile(bars, 0.95 * s.observations, s.p95)
    && IsQuantile(bars, 0.99 * s.observations, s.p99)
  }

  // In milliseconds, of seconds.
  ghost predicate IsMean(mean: real, sum: real, count: real) {
    count != 0.0 && mean == sum * 1000.0 / count
  }

  /** An accepted difference has all three quantiles, in order, each in the bucket of its rank. */
  method Summarize(before: seq<Sample>, after: seq<Sample>) returns (out: Result<Summary>, ghost bars: seq<Bar>)
    ensures WellFormed(before, after) ==> out.Ok?
    ensures out.Ok? ==>
              Sorted(bars) && DeltaOf(before, after, |after|).Some?
                && bars == DeltaOf(before, after, |after|).value.bars
    ensures out.Ok? ==> out.value.observations > 0.0 && UptoBoundary(bars, Infinite) == Some(out.value.observations)
    ensures out.Ok? ==> HasQuantiles(bars, out.value)
    ensures out.Ok? ==>
              && out.value.observations == Added(before, after, |after|, Count)
              && IsMean(out.value.mean, Added(before, after, |after|, Sum), out.value.observations)
    ensures out.Ok? && Nonnegative(bars) ==> out.value.p50.value <= out.value.p95.value <= out.value.p99.value
  {
    bars := [];
    var delta := Subtract(before, after);
    if delta.None? || delta.value.count == 0.0 || UptoBoundary(delta.value.bars, Infinite) != Some(delta.value.count) {
      return Err(InvalidArgument), bars;
    }
    DeltaIsSorted(before, after, |after|);
    bars := delta.value.bars;
    DeltaIsExact(before, after, |after|, Infinite);
    out := SummarizeDelta(delta.value);
  }

  // Fails when the counts go down before a rank is reached.
  method SummarizeDelta(delta: Delta) returns (out: Result<Summary>)
    requires Sorted(delta.bars) && delta.count > 0.0 && UptoBoundary(delta.bars, Infinite) == Some(delta.count)
    ensures Monotone(delta.bars) ==> out.Ok?
    ensures out.Ok? ==>
              && out.value.observations == delta.count && IsMean(out.value.mean, delta.sum, delta.count)
              && HasQuantiles(delta.bars, out.value)
              && (Nonnegative(delta.bars) ==> out.value.p50.value <= out.value.p95.value <= out.value.p99.value)
  {
    var p50 := QuantileAt(delta.bars, delta.count, 0.5);
    var p95 := QuantileAt(delta.bars, delta.count, 0.95);
    var p99 := QuantileAt(delta.bars, delta.count, 0.99);
    if p50.None? || p95.None? || p99.None? {
      return Err(InvalidArgument);
    }
    var summary := Summary(delta.count, delta.sum * 1000.0 / delta.count, p50, p95, p99);
    AllAscend(delta.bars, summary);
    out := Ok(summary);
  }

  // The difference of the scrapes, series by series.
  method Subtract(before: seq<Sample>, after: seq<Sample>) returns (out: Option<Delta>)
    ensures out == DeltaOf(before, after, |after|)
  {
    var delta := Delta([], 0.0, 0.0);
    for n := 0 to |after|
      invariant DeltaOf(before, after, n) == Some(delta)
    {
      var value := after[n].value - Old(before, after[n].id);
      if value < 0.0 {
        ResetStays(before, after, n + 1, |after|);
        return None;
      }
      match after[n].kind {
        case Bucket(le) => delta := delta.(bars := AddTo(delta.bars, le, value));
        case Count => delta := delta.(count := delta.count + value);
        case Sum => delta := delta.(sum := delta.sum + value);
      }
    }
    return Some(delta);
  }

  // How many observations a quantile has below it.
  function Rank(share: real, count: real): real {
    share * count
  }

  // The three quantiles were found by their ranks.
  ghost predicate AreQuantiles(bars: seq<Bar>, s: Summary) {
    IsQuantile(bars, Rank(0.5, s.observations), s.p50) && IsQuantile(bars, Rank(0.95, s.observations), s.p95)
      && IsQuantile(bars, Rank(0.99, s.observations), s.p99)
  }

  lemma AllAscend(bars: seq<Bar>, s: Summary)
    requires Sorted(bars) && s.observations > 0.0 && AreQuantiles(bars, s)
    ensures HasQuantiles(bars, s)
    ensures Nonnegative(bars) ==> s.p50.value <= s.p95.value <= s.p99.value
  {
    if Nonnegative(bars) {
      SharesAscend(s.observations);
      MillisAscend(bars, Rank(0.5, s.observations), Rank(0.95, s.observations), s.p50, s.p95);
      MillisAscend(bars, Rank(0.95, s.observations), Rank(0.99, s.observations), s.p95, s.p99);
    }
  }

  lemma SharesAscend(count: real)
    requires count > 0.0
    ensures 0.0 <= Rank(0.5, count) <= Rank(0.95, count) <= Rank(0.99, count)
  {
  }

  lemma MillisAscend(bars: seq<Bar>, r: real, s: real, x: Option<real>, y: Option<real>)
    requires Sorted(bars) && Nonnegative(bars) && 0.0 <= r <= s && IsQuantile(bars, r, x) && IsQuantile(bars, s, y)
    ensures x.value <= y.value
  {
    var i: nat :| Holds(bars, i, r) && x == Some(Within(bars, i, r) * 1000.0);
    var j: nat :| Holds(bars, j, s) && y == Some(Within(bars, j, s) * 1000.0);
    QuantilesAscend(bars, i, j, r, s);
  }

  // None when the counts go down before the rank is reached.
  method QuantileAt(bars: seq<Bar>, count: real, share: real) returns (out: Option<real>)
    requires Sorted(bars) && UptoBoundary(bars, Infinite) == Some(count) && count > 0.0 && 0.0 <= share <= 1.0
    ensures out.Some? ==> IsQuantile(bars, Rank(share, count), out)
    ensures out.None? ==> !Monotone(bars)
  {
    ReachedByAll(bars, count, share);
    var found := FindQuantile(bars, Rank(share, count));
    if found.Err? || found.value.None? {
      return None;
    }
    return Some(found.value.value * 1000.0);
  }

  /******* Percentiles of single measurements *******/

  function Ceiling(x: real): int {
    -((-x).Floor)
  }

  // The nearest rank, counted from zero.
  function Nearest(n: nat, share: real): int {
    var i := Ceiling(n as real * share) - 1;
    if i < 0 then 0 else i
  }

  ghost predicate Ascending(values: seq<real>) {
    forall i, j | 0 <= i < j < |values| :: values[i] <= values[j]
  }

  /** The rank is the least of the measurements up to which at least the share of them are, and a greater
      share never has a smaller percentile. */
  lemma PercentilesAscend(values: seq<real>, share: real, greater: real)
    requires Ascending(values) && values != [] && 0.0 <= share <= greater <= 1.0
    ensures 0 <= Nearest(|values|, share) <= Nearest(|values|, greater) < |values|
    ensures |values| as real * share <= (Nearest(|values|, share) + 1) as real
    ensures Nearest(|values|, share) == 0 || (Nearest(|values|, share) as real) < |values| as real * share
    ensures values[Nearest(|values|, share)] <= values[Nearest(|values|, greater)]
  {
    var n := |values| as real;
    Product(n, greater - share);
    Product(n, 1.0 - greater);
    assert n * (greater - share) == n * greater - n * share;
    assert n * (1.0 - greater) == n - n * greater;
  }
}
