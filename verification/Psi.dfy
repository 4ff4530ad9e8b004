/** The population stability index of two histograms, over exact numbers. */
module Psi {
  import opened Wrappers

  // What the index needs of the natural logarithm.
  ghost predicate IsLog(ln: real -> real) {
    && (forall x: real, y: real | 0.0 < x < y :: ln(x) < ln(y))
    && (forall x: real | 0.0 < x :: ln(1.0 / x) == -ln(x))
  }

  function Sum(counts: seq<nat>): nat {
    if counts == [] then 0 else Sum(counts[..|counts| - 1]) + counts[|counts| - 1]
  }

  // The sum of the smoothed counts: half a pseudocount goes to every bin.
  function Total(counts: seq<nat>): real {
    Sum(counts) as real + 0.5 * |counts| as real
  }

  // The smoothed share of bin i.
  function Share(counts: seq<nat>, i: nat): real
    requires i < |counts|
  {
    TotalIsPositive(counts);
    (counts[i] as real + 0.5) / Total(counts)
  }

  lemma TotalIsPositive(counts: seq<nat>)
    requires counts != []
    ensures Total(counts) > 0.0
  {
  }

  lemma ShareIsPositive(counts: seq<nat>, i: nat)
    requires i < |counts|
    ensures Share(counts, i) > 0.0
  {
    TotalIsPositive(counts);
    Quotient(counts[i] as real + 0.5, Total(counts));
  }

  lemma Sign(x: real, y: real)
    requires y > 0.0
    ensures (x * y > 0.0 <==> x > 0.0) && (x * y < 0.0 <==> x < 0.0)
  {
  }

  lemma Cancel(x: real, z: real, y: real)
    requires y > 0.0 && x * y == z * y
    ensures x == z
  {
    assert (x - z) * y == x * y - z * y;
    Sign(x - z, y);
  }

  lemma Quotient(x: real, y: real)
    requires x > 0.0 && y > 0.0
    ensures x / y > 0.0
    ensures (x / y) * y == x
    ensures y < x <==> 1.0 < x / y
    ensures x == y <==> x / y == 1.0
  {
    var q := x / y;
    assert q * y == x;
    Sign(q, y);
    assert (q - 1.0) * y == q * y - y;
    Sign(q - 1.0, y);
  }

  lemma Whole(x: real, y: real)
    requires y > 0.0
    ensures (x / y) * y == x
  {
  }

  lemma Reciprocal(x: real, y: real)
    requires x > 0.0 && y > 0.0
    ensures x / y > 0.0 && y / x > 0.0
    ensures 1.0 / (x / y) == y / x
  {
    Quotient(x, y);
    Quotient(y, x);
    var q, r := x / y, y / x;
    assert (r * q) * x == q * (r * x);
    Cancel(r * q, 1.0, x);
    Quotient(1.0, q);
    Cancel(1.0 / q, r, q);
  }

  lemma ShareTimesTotal(counts: seq<nat>, i: nat)
    requires i < |counts|
    ensures Share(counts, i) * Total(counts) == counts[i] as real + 0.5
  {
    TotalIsPositive(counts);
    Quotient(counts[i] as real + 0.5, Total(counts));
  }

  lemma Distribute(x: real, y: real, z: real)
    ensures (x + y) * z == x * z + y * z
  {
  }

  lemma TotalOneMore(counts: seq<nat>, n: nat)
    requires n < |counts|
    ensures Total(counts[..n + 1]) == Total(counts[..n]) + counts[n] as real + 0.5
  {
    assert counts[..n + 1][..n] == counts[..n];
  }

  function Term(ln: real -> real, a: seq<nat>, b: seq<nat>, i: nat): real
    requires i < |a| == |b|
  {
    ShareIsPositive(a, i);
    (Share(b, i) - Share(a, i)) * ln(Share(b, i) / Share(a, i))
  }

  function Terms(ln: real -> real, a: seq<nat>, b: seq<nat>, n: nat): real
    requires n <= |a| == |b|
  {
    if n == 0 then 0.0 else Terms(ln, a, b, n - 1) + Term(ln, a, b, n - 1)
  }

  function Psi(ln: real -> real, reference: seq<nat>, observed: seq<nat>): Result<real> {
    if |reference| != |observed| || reference == [] then Err(InvalidArgument)
    else Ok(Terms(ln, reference, observed, |reference|))
  }

  /******* The shares are a distribution *******/

  function Shares(counts: seq<nat>, n: nat): real
    requires n <= |counts|
  {
    if n == 0 then 0.0 else Shares(counts, n - 1) + Share(counts, n - 1)
  }

  lemma {:induction false} PartialShares(counts: seq<nat>, n: nat)
    requires n <= |counts| && counts != []
    ensures Shares(counts, n) * Total(counts) == Total(counts[..n])
  {
    if n > 0 {
      PartialShares(counts, n - 1);
      ShareTimesTotal(counts, n - 1);
      TotalOneMore(counts, n - 1);
      Distribute(Shares(counts, n - 1), Share(counts, n - 1), Total(counts));
    }
  }

  /** Smoothing gives every bin a positive share, and the shares sum to one. */
  lemma SharesAreADistribution(counts: seq<nat>)
    requires counts != []
    ensures forall i | 0 <= i < |counts| :: 0.0 < Share(counts, i)
    ensures Shares(counts, |counts|) == 1.0
  {
    forall i | 0 <= i < |counts| ensures 0.0 < Share(counts, i) {
      ShareIsPositive(counts, i);
    }
    PartialShares(counts, |counts|);
    TotalIsPositive(counts);
    assert counts[..|counts|] == counts;
    Cancel(Shares(counts, |counts|), 1.0, Total(counts));
  }

  /******* The index is a divergence *******/

  lemma LogOfOne(ln: real -> real)
    requires IsLog(ln)
    ensures ln(1.0) == 0.0
  {
    var x: real := 1.0;
    assert 1.0 / x == x;
    assert ln(1.0 / x) == -ln(x);
  }

  lemma TermIsNonnegative(ln: real -> real, a: seq<nat>, b: seq<nat>, i: nat)
    requires IsLog(ln) && i < |a| == |b|
    ensures Term(ln, a, b, i) >= 0.0
    ensures Term(ln, a, b, i) == 0.0 <==> Share(a, i) == Share(b, i)
    ensures Term(ln, a, b, i) == Term(ln, b, a, i)
  {
    var p, q := Share(a, i), Share(b, i);
    ShareIsPositive(a, i);
    ShareIsPositive(b, i);
    Quotient(q, p);
    Quotient(p, q);
    Reciprocal(q, p);
    LogOfOne(ln);
    Signed(q - p, ln(q / p));
    assert ln(1.0 / (q / p)) == -ln(q / p);
    assert (q - p) * ln(q / p) == (p - q) * -ln(q / p);
  }

  lemma Signed(x: real, y: real)
    requires (x > 0.0 ==> y > 0.0) && (x < 0.0 ==> y < 0.0)
    ensures x * y >= 0.0
    ensures x * y == 0.0 <==> x == 0.0
  {
    if y > 0.0 { Sign(x, y); }
    if y < 0.0 { Sign(-x, -y); }
  }

  lemma {:induction false} TermsAreNonnegative(ln: real -> real, a: seq<nat>, b: seq<nat>, n: nat)
    requires IsLog(ln) && n <= |a| == |b|
    ensures Terms(ln, a, b, n) >= 0.0
    ensures Terms(ln, a, b, n) == 0.0 <==> forall i | 0 <= i < n :: Share(a, i) == Share(b, i)
    ensures Terms(ln, a, b, n) == Terms(ln, b, a, n)
  {
    if n > 0 {
      TermsAreNonnegative(ln, a, b, n - 1);
      TermIsNonnegative(ln, a, b, n - 1);
    }
  }

  /** The index of two nonempty histograms of one length is a symmetric number that is never negative,
      and zero exactly when their smoothed distributions are the same. */
  lemma PsiIsADivergence(ln: real -> real, a: seq<nat>, b: seq<nat>)
    requires IsLog(ln)
    ensures Psi(ln, a, b).Ok? <==> |a| == |b| > 0
    ensures Psi(ln, a, b) == Psi(ln, b, a)
    ensures Psi(ln, a, b).Ok? ==>
              var psi := Psi(ln, a, b).value;
              psi >= 0.0 && (psi == 0.0 <==> forall i | 0 <= i < |a| :: Share(a, i) == Share(b, i))
  {
    if |a| == |b| {
      TermsAreNonnegative(ln, a, b, |a|);
    }
  }

  /** Between two datasets of one size, only identical histograms have an index of zero. */
  lemma ZeroMeansEqualCounts(ln: real -> real, a: seq<nat>, b: seq<nat>)
    requires IsLog(ln) && |a| == |b| > 0 && Sum(a) == Sum(b)
    ensures Psi(ln, a, b) == Ok(0.0) <==> a == b
  {
    PsiIsADivergence(ln, a, b);
    forall i | 0 <= i < |a| && Share(a, i) == Share(b, i) ensures a[i] == b[i] {
      SameShareSameCount(a, b, i);
    }
  }

  lemma SameShareSameCount(a: seq<nat>, b: seq<nat>, i: nat)
    requires i < |a| == |b| && Sum(a) == Sum(b) && Share(a, i) == Share(b, i)
    ensures a[i] == b[i]
  {
    ShareTimesTotal(a, i);
    ShareTimesTotal(b, i);
    assert Total(a) == Total(b);
  }

  /******* What the index is *******/

  ghost function Piece(ln: real -> real, x: real, y: real): real
    requires y > 0.0
  {
    x * ln(x / y)
  }

  // The first n terms of the relative entropy of p with respect to q.
  ghost function Entropy(ln: real -> real, p: seq<real>, q: seq<real>, n: nat): real
    requires n <= |p| == |q| && Positive(q)
  {
    if n == 0 then 0.0 else Entropy(ln, p, q, n - 1) + Piece(ln, p[n - 1], q[n - 1])
  }

  // Every count is given half a pseudocount, and the shares are of all of them together.
  ghost predicate IsSmoothed(p: seq<real>, counts: seq<nat>) {
    && |p| == |counts|
    && forall i | 0 <= i < |p| :: p[i] * (Sum(counts) as real + |counts| as real / 2.0) == counts[i] as real + 0.5
  }

  // The two distributions are the shares of the counts.
  ghost predicate AreShares(p: seq<real>, counts: seq<nat>) {
    |p| == |counts| && forall i | 0 <= i < |p| :: p[i] == Share(counts, i) && p[i] > 0.0
  }

  lemma SmoothedAreShares(p: seq<real>, counts: seq<nat>)
    requires IsSmoothed(p, counts) && counts != []
    ensures AreShares(p, counts)
  {
    forall i | 0 <= i < |p| ensures p[i] == Share(counts, i) && p[i] > 0.0 {
      ShareTimesTotal(counts, i);
      TotalIsPositive(counts);
      ShareIsPositive(counts, i);
      OnlyShare(p[i], Share(counts, i), Sum(counts) as real, |counts| as real, Total(counts), counts[i] as real + 0.5);
    }
  }

  lemma OnlyShare(x: real, share: real, sum: real, bins: real, total: real, mass: real)
    requires total == sum + 0.5 * bins && total > 0.0
    requires x * (sum + bins / 2.0) == mass && share * total == mass
    ensures x == share
  {
    assert sum + bins / 2.0 == total;
    Cancel(x, share, total);
  }

  lemma TermIsTwoEntropies(ln: real -> real, p: real, q: real)
    requires IsLog(ln) && p > 0.0 && q > 0.0
    ensures (q - p) * ln(q / p) == p * ln(p / q) + q * ln(q / p)
  {
    Reciprocal(q, p);
    assert ln(1.0 / (q / p)) == -ln(q / p);
    Distribute(q, -p, ln(q / p));
  }

  lemma TermOfShares(ln: real -> real, a: seq<nat>, b: seq<nat>, i: nat, p: real, q: real)
    requires IsLog(ln) && i < |a| == |b| && p == Share(a, i) > 0.0 && q == Share(b, i) > 0.0
    ensures Term(ln, a, b, i) == Piece(ln, p, q) + Piece(ln, q, p)
  {
    TermIsTwoEntropies(ln, p, q);
  }

  ghost predicate Positive(p: seq<real>) {
    forall i | 0 <= i < |p| :: p[i] > 0.0
  }

  // The terms are those of two relative entropies.
  ghost predicate Split(ln: real -> real, a: seq<nat>, b: seq<nat>, p: seq<real>, q: seq<real>) {
    && |a| == |b| == |p| == |q| && Positive(p) && Positive(q)
    && forall i | 0 <= i < |a| :: Term(ln, a, b, i) == Piece(ln, p[i], q[i]) + Piece(ln, q[i], p[i])
  }

  lemma {:induction false} TermsAreEntropies(ln: real -> real, a: seq<nat>, b: seq<nat>, p: seq<real>, q: seq<real>,
      n: nat)
    requires Split(ln, a, b, p, q) && n <= |a|
    ensures Terms(ln, a, b, n) == Entropy(ln, p, q, n) + Entropy(ln, q, p, n)
  {
    if n > 0 {
      TermsAreEntropies(ln, a, b, p, q, n - 1);
    }
  }

  /** The index is Jeffreys' divergence of the smoothed distributions: the relative entropy of each with
      respect to the other, together. */
  lemma PsiIsJeffreys(ln: real -> real, a: seq<nat>, b: seq<nat>, p: seq<real>, q: seq<real>)
    requires IsLog(ln) && |a| == |b| > 0 && IsSmoothed(p, a) && IsSmoothed(q, b)
    ensures Positive(p) && Positive(q)
    ensures Psi(ln, a, b) == Ok(Entropy(ln, p, q, |p|) + Entropy(ln, q, p, |q|))
  {
    SmoothedAreShares(p, a);
    SmoothedAreShares(q, b);
    forall i | 0 <= i < |a| ensures Term(ln, a, b, i) == Piece(ln, p[i], q[i]) + Piece(ln, q[i], p[i]) {
      TermOfShares(ln, a, b, i, p[i], q[i]);
    }
    TermsAreEntropies(ln, a, b, p, q, |a|);
  }
}
