/** Error sums, mean and variance collected one matched row at a time. */
module Regression {
  import opened Wrappers
  import opened Counting
  import P = Psi

  datatype Point = Point(actual: real, predicted: real)

  // After n points: sums of errors and squared errors, the mean label, and its squared deviations.
  datatype Sums = Sums(n: nat, errors: real, squares: real, mean: real, m2: real)

  function Abs(x: real): real { if x < 0.0 then -x else x }

  function Add(t: Sums, p: Point): Sums {
    var error := p.predicted - p.actual;
    var delta := p.actual - t.mean;
    var mean := t.mean + delta / (t.n + 1) as real;
    Sums(t.n + 1, t.errors + Abs(error), t.squares + error * error, mean, t.m2 + delta * (p.actual - mean))
  }

  const ZERO := Sums(0, 0.0, 0.0, 0.0, 0.0)

  function Streamed(points: seq<Point>): Sums {
    if points == [] then ZERO else Add(Streamed(points[..|points| - 1]), points[|points| - 1])
  }

  /******* The whole-dataset definitions *******/

  function Error(p: Point): real { p.predicted - p.actual }

  function Errors(points: seq<Point>, k: nat): real
    requires k <= |points|
  {
    if k == 0 then 0.0 else Errors(points, k - 1) + Abs(Error(points[k - 1]))
  }

  function SquaredErrors(points: seq<Point>, k: nat): real
    requires k <= |points|
  {
    if k == 0 then 0.0 else SquaredErrors(points, k - 1) + Error(points[k - 1]) * Error(points[k - 1])
  }

  function Labels(points: seq<Point>, k: nat): real
    requires k <= |points|
  {
    if k == 0 then 0.0 else Labels(points, k - 1) + points[k - 1].actual
  }

  function SquaredLabels(points: seq<Point>, k: nat): real
    requires k <= |points|
  {
    if k == 0 then 0.0 else SquaredLabels(points, k - 1) + points[k - 1].actual * points[k - 1].actual
  }

  function Deviations(points: seq<Point>, k: nat, mean: real): real
    requires k <= |points|
  {
    if k == 0 then
      0.0
    else Deviations(points, k - 1, mean) + (points[k - 1].actual - mean) * (points[k - 1].actual - mean)
  }

  // The values are those of the first k points: `mean` is the mean label, `m2` the sum of the squared
  // deviations from it.
  ghost predicate ExactTo(points: seq<Point>, k: nat, t: Sums)
    requires k <= |points|
  {
    && t.n == k
    && t.errors == Errors(points, k)
    && t.squares == SquaredErrors(points, k)
    && Centred(points, k, t.mean, t.m2)
  }

  ghost predicate Centred(points: seq<Point>, k: nat, mean: real, m2: real)
    requires k <= |points|
  {
    && (k == 0 ==> mean == 0.0)
    && mean * k as real == Labels(points, k)
    && m2 == Deviations(points, k, mean)
  }

  ghost predicate Exact(points: seq<Point>, t: Sums) {
    ExactTo(points, |points|, t)
  }

  // Squared deviations d from m, by the sum of squares q and the sum s of n labels.
  ghost predicate Spread(d: real, q: real, s: real, n: real, m: real) {
    d == q - 2.0 * m * s + n * (m * m)
  }

  lemma SpreadStep(d: real, q: real, s: real, n: real, m: real, a: real, d1: real, q1: real, s1: real, n1: real)
    requires Spread(d, q, s, n, m)
    requires d1 == d + (a - m) * (a - m) && q1 == q + a * a && s1 == s + a && n1 == n + 1.0
    ensures Spread(d1, q1, s1, n1, m)
  {
  }

  // The same about two means, the second with one more label, whose square is `square`.
  lemma SpreadOfMeans(d: real, q: real, s: real, n: real, m: real, a: real, square: real, d1: real, m1: real,
      after: real)
    requires Spread(d, q, s, n, m) && Spread(d1, q + square, s + a, n + 1.0, m1) && square == a * a
    requires m * n == s && m1 * (n + 1.0) == m * n + a
    requires after == d + (a - m) * (a - m1)
    ensures d1 == after
  {
    TwiceLess(m, n, s);
    TwiceLess(m1, n + 1.0, s + a);
    NewDeviation(n, m, a, m1);
  }

  lemma {:induction false} DeviationSum(points: seq<Point>, k: nat, mean: real)
    requires k <= |points|
    ensures Spread(Deviations(points, k, mean), SquaredLabels(points, k), Labels(points, k), k as real, mean)
  {
    if k > 0 {
      DeviationSum(points, k - 1, mean);
      SpreadStep(Deviations(points, k - 1, mean), SquaredLabels(points, k - 1), Labels(points, k - 1),
          (k - 1) as real, mean, points[k - 1].actual,
                 Deviations(points, k, mean), SquaredLabels(points, k), Labels(points, k), k as real);
    }
  }

  lemma TwiceLess(m: real, n: real, s: real)
    requires m * n == s
    ensures -(2.0 * m * s) + n * (m * m) == -(n * (m * m))
  {
    assert m * s == n * (m * m);
  }

  lemma NewMean(n: real, mean: real, a: real)
    requires n >= 0.0
    ensures (mean + (a - mean) / (n + 1.0)) * (n + 1.0) == mean * n + a
  {
    var q := (a - mean) / (n + 1.0);
    assert q * (n + 1.0) == a - mean;
    P.Distribute(mean, q, n + 1.0);
    P.Distribute(n, 1.0, mean);
  }

  lemma NewDeviation(n: real, mean: real, a: real, next: real)
    requires next * (n + 1.0) == mean * n + a
    ensures a * a - (n + 1.0) * (next * next) == (a - mean) * (a - next) - n * (mean * mean)
  {
    assert (n + 1.0) * (next * next) == next * (next * (n + 1.0));
    assert next * (mean * n + a) == next * mean * n + next * a;
    assert (a - mean) * (a - next) == a * a - a * next - mean * a + mean * next;
    assert mean * (next * (n + 1.0)) == mean * next * n + mean * next;
    assert mean * (mean * n + a) == n * (mean * mean) + mean * a;
  }

  lemma AddedMean(t: Sums, p: Point)
    ensures Add(t, p).mean * (t.n as real + 1.0) == t.mean * t.n as real + p.actual
    ensures Add(t, p).m2 == t.m2 + (p.actual - t.mean) * (p.actual - Add(t, p).mean)
  {
    NewMean(t.n as real, t.mean, p.actual);
  }

  lemma DeviationStep(points: seq<Point>, k: nat, mean: real, next: real, square: real, after: real)
    requires k < |points| && square == points[k].actual * points[k].actual
    requires mean * k as real == Labels(points, k)
    requires next * (k as real + 1.0) == mean * k as real + points[k].actual
    requires after == Deviations(points, k, mean) + (points[k].actual - mean) * (points[k].actual - next)
    ensures Deviations(points, k + 1, next) == after
  {
    DeviationSum(points, k, mean);
    NextSpread(points, k, next, square);
    SpreadOfMeans(Deviations(points, k, mean), SquaredLabels(points, k), Labels(points, k), k as real, mean,
                  points[k].actual, square, Deviations(points, k + 1, next), next, after);
  }

  lemma NextSpread(points: seq<Point>, k: nat, mean: real, square: real)
    requires k < |points| && square == points[k].actual * points[k].actual
    ensures Spread(Deviations(points, k + 1, mean), SquaredLabels(points, k) + square,
                   Labels(points, k) + points[k].actual, k as real + 1.0, mean)
  {
    DeviationSum(points, k + 1, mean);
    LabelStep(points, k, square);
  }

  lemma LabelStep(points: seq<Point>, k: nat, square: real)
    requires k < |points| && square == points[k].actual * points[k].actual
    ensures SquaredLabels(points, k + 1) == SquaredLabels(points, k) + square
    ensures Labels(points, k + 1) == Labels(points, k) + points[k].actual
  {
  }

  lemma CentredStep(points: seq<Point>, k: nat, mean: real, m2: real, next: real, after: real)
    requires k < |points| && Centred(points, k, mean, m2)
    requires next * (k as real + 1.0) == mean * k as real + points[k].actual
    requires after == m2 + (points[k].actual - mean) * (points[k].actual - next)
    ensures Centred(points, k + 1, next, after)
  {
    DeviationStep(points, k, mean, next, points[k].actual * points[k].actual, after);
    MeanStep(next, k as real, (k + 1) as real, mean * k as real, points[k].actual);
  }

  lemma MeanStep(next: real, n: real, n1: real, sum: real, a: real)
    requires next * (n + 1.0) == sum + a && n1 == n + 1.0
    ensures next * n1 == sum + a
  {
  }

  lemma AddIsExact(points: seq<Point>, k: nat, t: Sums)
    requires k < |points| && ExactTo(points, k, t)
    ensures ExactTo(points, k + 1, Add(t, points[k]))
  {
    AddedMean(t, points[k]);
    CentredStep(points, k, t.mean, t.m2, Add(t, points[k]).mean, Add(t, points[k]).m2);
    AddedErrors(points, k, t);
  }

  lemma AddedErrors(points: seq<Point>, k: nat, t: Sums)
    requires k < |points|
    requires t.n == k && t.errors == Errors(points, k) && t.squares == SquaredErrors(points, k)
    ensures Add(t, points[k]).n == k + 1
    ensures Add(t, points[k]).errors == Errors(points, k + 1)
    ensures Add(t, points[k]).squares == SquaredErrors(points, k + 1)
  {
  }

  lemma {:induction false} SamePrefix(a: seq<Point>, b: seq<Point>, k: nat, mean: real)
    requires k <= |a| && k <= |b| && forall i | 0 <= i < k :: a[i] == b[i]
    ensures Errors(a, k) == Errors(b, k) && SquaredErrors(a, k) == SquaredErrors(b, k)
    ensures Labels(a, k) == Labels(b, k) && Deviations(a, k, mean) == Deviations(b, k, mean)
  {
    if k > 0 {
      SamePrefix(a, b, k - 1, mean);
    }
  }

  lemma AppendIsExact(points: seq<Point>, p: Point, t: Sums)
    requires Exact(points, t)
    ensures Exact(points + [p], Add(t, p))
  {
    SamePrefix(points, points + [p], |points|, t.mean);
    AddIsExact(points + [p], |points|, t);
  }

  /** Streaming yields the exact whole-dataset values. */
  lemma {:induction false} StreamIsExact(points: seq<Point>)
    ensures Exact(points, Streamed(points))
  {
    if points != [] {
      var last := |points| - 1;
      StreamIsExact(points[..last]);
      AppendIsExact(points[..last], points[last], Streamed(points[..last]));
      assert points == points[..last] + [points[last]];
    }
  }

  lemma ExactIsUnique(points: seq<Point>, t: Sums, u: Sums)
    requires Exact(points, t) && Exact(points, u)
    ensures t == u
  {
    if points != [] { P.Cancel(t.mean, u.mean, |points| as real); }
  }

  /******* Order *******/

  function AbsError(p: Point): real { Abs(Error(p)) }

  function SquaredError(p: Point): real { Error(p) * Error(p) }

  function Actual(p: Point): real { p.actual }

  function SquaredDeviation(mean: real): Point -> real {
    (p: Point) => (p.actual - mean) * (p.actual - mean)
  }

  lemma {:induction false} AsSums(points: seq<Point>, mean: real)
    ensures Errors(points, |points|) == SumOf(points, AbsError)
    ensures SquaredErrors(points, |points|) == SumOf(points, SquaredError)
    ensures Labels(points, |points|) == SumOf(points, Actual)
    ensures Deviations(points, |points|, mean) == SumOf(points, SquaredDeviation(mean))
  {
    if points != [] {
      var last := |points| - 1;
      AsSums(points[..last], mean);
      SamePrefix(points, points[..last], last, mean);
    }
  }

  lemma ExactPermutes(a: seq<Point>, b: seq<Point>, t: Sums)
    requires Permuted(a, b) && Exact(a, t)
    ensures Exact(b, t)
  {
    PermutedAgree(a, b, (q: Point) => true, AbsError);
    PermutedAgree(a, b, (q: Point) => true, SquaredError);
    PermutedAgree(a, b, (q: Point) => true, Actual);
    PermutedAgree(a, b, (q: Point) => true, SquaredDeviation(t.mean));
    AsSums(a, t.mean);
    AsSums(b, t.mean);
  }

  /** The order of the matched rows changes none of the values. */
  lemma StreamIgnoresOrder(a: seq<Point>, b: seq<Point>)
    requires Permuted(a, b)
    ensures Streamed(a) == Streamed(b)
  {
    StreamIsExact(a);
    StreamIsExact(b);
    ExactPermutes(a, b, Streamed(a));
    ExactIsUnique(b, Streamed(a), Streamed(b));
  }

  /******* The metrics *******/

  lemma ProductSign(x: real, y: real, q: real)
    requires y > 0.0 && q == x * y
    ensures q > 0.0 <==> x > 0.0
  {
    P.Sign(x, y);
  }

  lemma SquareIsPositive(x: real, q: real)
    requires q == x * x
    ensures q >= 0.0
    ensures q == 0.0 <==> x == 0.0
  {
    if x > 0.0 { ProductSign(x, x, q); }
    if x < 0.0 { ProductSign(-x, -x, q); }
  }

  lemma {:induction false} ErrorsAreNonnegative(points: seq<Point>, k: nat)
    requires k <= |points|
    ensures Errors(points, k) >= 0.0 && SquaredErrors(points, k) >= 0.0
  {
    if k > 0 {
      ErrorsAreNonnegative(points, k - 1);
      SquareIsPositive(Error(points[k - 1]), Error(points[k - 1]) * Error(points[k - 1]));
    }
  }

  // One step of: the square of a sum is at most n times the sum of the squares.
  ghost predicate AtMostSquares(n: real, s: real, q: real) {
    s * s <= n * q
  }

  lemma AtMostSquaresStep(n: real, s: real, q: real, x: real)
    requires n > 0.0 && AtMostSquares(n, s, q)
    ensures AtMostSquares(n + 1.0, s + x, q + x * x)
  {
    SquareIsPositive(s - n * x, (s - n * x) * (s - n * x));
    assert (s - n * x) * (s - n * x) == s * s - 2.0 * n * (s * x) + n * n * (x * x);
    var rest := q - 2.0 * (s * x) + n * (x * x);
    assert rest * n == n * q - 2.0 * n * (s * x) + n * n * (x * x);
    P.Sign(rest, n);
    assert (s + x) * (s + x) == s * s + 2.0 * (s * x) + x * x;
    assert (n + 1.0) * (q + x * x) == n * q + q + n * (x * x) + x * x;
  }

  lemma {:induction false} SumOfErrorsAtMostSquares(points: seq<Point>, k: nat)
    requires k <= |points|
    ensures AtMostSquares(k as real, Errors(points, k), SquaredErrors(points, k))
  {
    if k > 0 {
      SumOfErrorsAtMostSquares(points, k - 1);
      var e := Error(points[k - 1]);
      assert Abs(e) * Abs(e) == e * e;
      if k > 1 {
        AtMostSquaresStep(k as real - 1.0, Errors(points, k - 1), SquaredErrors(points, k - 1), Abs(e));
      }
    }
  }

  predicate SquareAtMost(y: real, x: real) {
    0.0 <= y && y * y <= x
  }

  // What the metrics need of the square root: no number whose square is at most x exceeds it.
  ghost predicate IsRoot(sqrt: real -> real) {
    forall x: real, y: real | SquareAtMost(y, x) :: y <= sqrt(x)
  }

  lemma NonnegativeQuotient(x: real, y: real)
    requires x >= 0.0 && y > 0.0
    ensures x / y >= 0.0
  {
    assert (x / y) * y == x;
    P.Sign(x / y, y);
  }

  lemma MeanSquares(n: real, s: real, q: real)
    requires n > 0.0 && AtMostSquares(n, s, q)
    ensures (s / n) * (s / n) <= q / n
  {
    var x, y := s / n, q / n;
    assert x * n == s && y * n == q;
    assert (q - x * s) * n == q * n - s * (x * n);
    P.Sign(q - x * s, n);
    assert (y - x * x) * n == y * n - x * (x * n);
    P.Sign(y - x * x, n);
  }

  lemma MeanAtMostRoot(n: real, s: real, q: real, sqrt: real -> real)
    requires IsRoot(sqrt) && n > 0.0 && s >= 0.0 && q >= 0.0 && AtMostSquares(n, s, q)
    ensures q / n >= 0.0 && 0.0 <= s / n <= sqrt(q / n)
  {
    NonnegativeQuotient(s, n);
    NonnegativeQuotient(q, n);
    MeanSquares(n, s, q);
    assert SquareAtMost(s / n, q / n);
  }

  /** The mean absolute error is at most the root mean square error, neither is negative, and the
      coefficient of determination is at most one. */
  lemma MetricsAreBounded(points: seq<Point>, t: Sums, sqrt: real -> real)
    requires IsRoot(sqrt) && points != [] && Exact(points, t)
    ensures t.squares / t.n as real >= 0.0
    ensures 0.0 <= t.errors / t.n as real <= sqrt(t.squares / t.n as real)
    ensures t.m2 > 0.0 ==> 1.0 - t.squares / t.m2 <= 1.0
  {
    ErrorsAreNonnegative(points, |points|);
    SumOfErrorsAtMostSquares(points, |points|);
    MeanAtMostRoot(t.n as real, t.errors, t.squares, sqrt);
    if t.m2 > 0.0 { NonnegativeQuotient(t.squares, t.m2); }
  }

  /** The deviations vanish, and with them r2, only when all labels are one value. */
  lemma {:induction false} DeviationIsZeroForOneValue(points: seq<Point>, k: nat, mean: real)
    requires k <= |points|
    ensures Deviations(points, k, mean) >= 0.0
    ensures Deviations(points, k, mean) == 0.0 <==> forall i | 0 <= i < k :: points[i].actual == mean
  {
    if k > 0 {
      DeviationIsZeroForOneValue(points, k - 1, mean);
      var x := points[k - 1].actual - mean;
      OneMoreSquare(Deviations(points, k - 1, mean), x, x * x, Deviations(points, k, mean));
    }
  }

  lemma OneMoreSquare(d: real, x: real, q: real, sum: real)
    requires d >= 0.0 && q == x * x && sum == d + q
    ensures sum >= 0.0
    ensures sum == 0.0 <==> d == 0.0 && x == 0.0
  {
    SquareIsPositive(x, q);
  }

  /** Labels vary exactly when two of them differ. */
  lemma VariationDecides(points: seq<Point>, mean: real)
    requires points != [] && mean * |points| as real == Labels(points, |points|)
    ensures Deviations(points, |points|, mean) > 0.0 <==>
              exists i, j :: 0 <= i < j < |points| && points[i].actual != points[j].actual
  {
    var n := |points|;
    DeviationIsZeroForOneValue(points, n, mean);
    if forall i, j :: 0 <= i < j < n ==> points[i].actual == points[j].actual {
      assert forall i | 0 <= i < n :: points[i].actual == points[0].actual;
      LabelsOfOneValue(points, n, points[0].actual);
      OnlyMean(mean, points[0].actual, n as real, Labels(points, n));
    }
  }

  lemma OnlyMean(x: real, y: real, n: real, sum: real)
    requires n > 0.0 && x * n == sum && y * n == sum
    ensures x == y
  {
    P.Cancel(x, y, n);
  }

  lemma {:induction false} LabelsOfOneValue(points: seq<Point>, k: nat, value: real)
    requires k <= |points| && forall i | 0 <= i < k :: points[i].actual == value
    ensures Labels(points, k) == value * k as real
  {
    if k > 0 {
      LabelsOfOneValue(points, k - 1, value);
      P.Distribute((k - 1) as real, 1.0, value);
    }
  }

  /** The squared errors vanish exactly when every prediction is right. */
  lemma {:induction false} RightDecides(points: seq<Point>, k: nat)
    requires k <= |points|
    ensures SquaredErrors(points, k) >= 0.0
    ensures SquaredErrors(points, k) == 0.0 <==> forall i | 0 <= i < k :: points[i].predicted == points[i].actual
  {
    if k > 0 {
      RightDecides(points, k - 1);
      var x := points[k - 1].predicted - points[k - 1].actual;
      OneMoreSquare(SquaredErrors(points, k - 1), x, x * x, SquaredErrors(points, k));
    }
  }
}
