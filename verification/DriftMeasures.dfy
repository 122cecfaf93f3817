/** The drift measures PSI and KL, and the levels they are classified into. `ln` is a parameter. */
module DriftMeasures {
  import opened Binning
  import Moments

  const EPSILON := 0.0001

  /** The share of bin `i`, at least EPSILON; `missing` stands for a bin that is not there. */
  function Weight(d: Dist, i: nat, missing: real): real
    requires d.count > 0
  {
    var w := if i < |d.bins| then d.bins[i].count as real / d.count as real else missing;
    if w < EPSILON then EPSILON else w
  }

  type Ln = real -> real

  function PsiTerm(base: real, current: real, ln: Ln): real
    requires base > 0.0
  {
    (current - base) * ln(current / base)
  }

  function PsiSum(baseline: Dist, current: Dist, n: nat, k: nat, ln: Ln): real
    requires baseline.count > 0 && current.count > 0 && k <= n
  {
    if k == 0 then 0.0
    else PsiSum(baseline, current, n, k - 1, ln)
         + PsiTerm(Weight(baseline, k - 1, 1.0 / n as real), Weight(current, k - 1, 0.0), ln)
  }

  function Psi(baseline: Dist, current: Dist, n: nat, ln: Ln): real {
    if baseline.count == 0 || current.count == 0 then 0.0 else PsiSum(baseline, current, n, n, ln)
  }

  function KlSum(baseline: Dist, current: Dist, k: nat, ln: Ln): real
    requires baseline.count > 0 && current.count > 0
  {
    if k == 0 then 0.0
    else
      KlSum(baseline, current, k - 1, ln)
      + KlTerm(Weight(baseline, k - 1, EPSILON), Weight(current, k - 1, EPSILON), ln)
  }

  function KlTerm(base: real, current: real, ln: Ln): real
    requires base > 0.0
  {
    current * ln(current / base)
  }

  function Kl(baseline: Dist, current: Dist, n: nat, ln: Ln): real {
    if baseline.count == 0 || current.count == 0 then 0.0 else KlSum(baseline, current, n, ln)
  }

  /** The floored shares of the first `n` bins. */
  method FlooredShares(d: Dist, n: nat, missing: real) returns (w: array<real>)
    requires d.count > 0
    ensures fresh(w) && w.Length == n && forall i :: 0 <= i < n ==> w[i] == Weight(d, i, missing)
  {
    w := new real[n];
    for i := 0 to n
      invariant forall j :: 0 <= j < i ==> w[j] == Weight(d, j, missing)
    {
      w[i] := if i < |d.bins| then d.bins[i].count as real / d.count as real else missing;
      if w[i] < EPSILON {
        w[i] := EPSILON;
      }
    }
  }

  method CalculatePSI(baseline: Dist, current: Dist, n: nat, ln: Ln) returns (psi: real)
    ensures psi == Psi(baseline, current, n, ln)
  {
    if baseline.count == 0 || current.count == 0 {
      return 0.0;
    }
    var binWidth := if n == 0 then 0.0 else 1.0 / n as real;
    var b := FlooredShares(baseline, n, binWidth);
    var c := FlooredShares(current, n, 0.0);
    psi := 0.0;
    assert n > 0 ==> binWidth == 1.0 / n as real;
    for i := 0 to n
      invariant psi == PsiSum(baseline, current, n, i, ln)
    {
      var base, now := b[i], c[i];
      psi := psi + (now - base) * ln(now / base);
    }
  }

  method CalculateKL(baseline: Dist, current: Dist, n: nat, ln: Ln) returns (kl: real)
    ensures kl == Kl(baseline, current, n, ln)
  {
    if baseline.count == 0 || current.count == 0 {
      return 0.0;
    }
    var b := FlooredShares(baseline, n, EPSILON);
    var c := FlooredShares(current, n, EPSILON);
    kl := 0.0;
    for i := 0 to n
      invariant kl == KlSum(baseline, current, i, ln)
    {
      var base, now := b[i], c[i];
      kl := kl + now * ln(now / base);
    }
  }

  /** What is used of the logarithm: it grows strictly and is 0 at 1. */
  ghost predicate Increasing(ln: Ln) {
    ln(1.0) == 0.0 && forall x, y :: 0.0 < x < y ==> ln(x) < ln(y)
  }

  lemma QuotientAgainstOne(a: real, b: real)
    requires a > 0.0 && b > 0.0
    ensures a / b > 0.0
    ensures a > b ==> a / b > 1.0
    ensures a < b ==> a / b < 1.0
  {
    var q := a / b;
    SameSign(q, b);
    SameSign(q - 1.0, b);
    assert q * b == a && (q - 1.0) * b == a - b;
  }

  lemma {:induction false} PsiTermSign(base: real, current: real, ln: Ln)
    requires base > 0.0 && current > 0.0 && Increasing(ln)
    ensures PsiTerm(base, current, ln) >= 0.0
    ensures PsiTerm(base, current, ln) == 0.0 <==> base == current
  {
    QuotientAgainstOne(current, base);
    var d, l := current - base, ln(current / base);
    if current > base {
      assert l > ln(1.0);
      assert d * l > 0.0;
    } else if current < base {
      assert l < ln(1.0);
      assert d * l == (-d) * (-l) > 0.0;
    }
  }

  lemma {:induction false} PsiTermSymmetric(base: real, current: real, ln: Ln)
    requires base > 0.0 && current > 0.0 && forall x :: x > 0.0 ==> ln(1.0 / x) == -ln(x)
    ensures PsiTerm(base, current, ln) == PsiTerm(current, base, ln)
  {
    QuotientAgainstOne(current, base);
    Inverse(base, current);
    var d, l := current - base, ln(current / base);
    assert ln(base / current) == -l;
    assert d * l == (-d) * (-l);
  }

  /** PSI is never negative, and 0 exactly when the floored weights coincide in every bin. */
  lemma {:induction false} PsiSign(baseline: Dist, current: Dist, n: nat, k: nat, ln: Ln)
    requires baseline.count > 0 && current.count > 0 && k <= n && Increasing(ln)
    ensures PsiSum(baseline, current, n, k, ln) >= 0.0
    ensures PsiSum(baseline, current, n, k, ln) == 0.0 <==>
            forall i :: 0 <= i < k ==> Weight(baseline, i, 1.0 / n as real) == Weight(current, i, 0.0)
  {
    if k > 0 {
      PsiSign(baseline, current, n, k - 1, ln);
      PsiTermSign(Weight(baseline, k - 1, 1.0 / n as real), Weight(current, k - 1, 0.0), ln);
    }
  }

  /** With ln(1/x) = -ln x as well, swapping baseline and current does not change PSI, once both have
      all their bins. */
  lemma {:induction false} PsiSymmetric(baseline: Dist, current: Dist, n: nat, k: nat, ln: Ln)
    requires baseline.count > 0 && current.count > 0 && k <= n <= |baseline.bins| && n <= |current.bins|
    requires forall x :: x > 0.0 ==> ln(1.0 / x) == -ln(x)
    ensures PsiSum(baseline, current, n, k, ln) == PsiSum(current, baseline, n, k, ln)
  {
    if k > 0 {
      PsiSymmetric(baseline, current, n, k - 1, ln);
      WeightPresent(baseline, k - 1, 1.0 / n as real, 0.0);
      WeightPresent(current, k - 1, 1.0 / n as real, 0.0);
      PsiTermSymmetric(Weight(baseline, k - 1, 0.0), Weight(current, k - 1, 0.0), ln);
    }
  }

  lemma WeightPresent(d: Dist, i: nat, missing: real, missing': real)
    requires d.count > 0 && i < |d.bins|
    ensures Weight(d, i, missing) == Weight(d, i, missing')
  {
  }

  lemma Inverse(b: real, c: real)
    requires b > 0.0 && c > 0.0
    ensures 1.0 / (c / b) == b / c
  {
    var q := c / b;
    assert q * b == c;
    assert b / c * q == 1.0 by {
      assert b / c * c == b;
    }
  }

  datatype Level = NoDrift | Minor | Significant | Major

  function Classify(psi: real, minor: real, significant: real, major: real): Level {
    if psi >= major then Major else if psi >= significant then Significant else if psi >= minor then Minor else NoDrift
  }

  function Rank(level: Level): nat {
    match level case NoDrift => 0 case Minor => 1 case Significant => 2 case Major => 3
  }

  /** With thresholds in order each level begins at its own. */
  lemma ClassifyByThreshold(psi: real, minor: real, significant: real, major: real)
    requires minor <= significant <= major
    ensures Rank(Classify(psi, minor, significant, major)) >= 1 <==> psi >= minor
    ensures Rank(Classify(psi, minor, significant, major)) >= 2 <==> psi >= significant
    ensures Rank(Classify(psi, minor, significant, major)) >= 3 <==> psi >= major
  {
  }

  /** A larger PSI is never classified lower, even when the thresholds are out of order. */
  lemma ClassifyMonotone(psi: real, psi': real, minor: real, significant: real, major: real)
    requires psi <= psi'
    ensures Rank(Classify(psi, minor, significant, major)) <= Rank(Classify(psi', minor, significant, major))
  {
  }

  /** Two distributions with the same counts show no drift: both measures are 0, and the level is none
      exactly when no threshold is 0 or less. */
  lemma {:induction false} SameCountsNoDrift(
    baseline: Dist, current: Dist, n: nat, ln: Ln, minor: real, significant: real, major: real)
    requires SameCounts(current, baseline) && |baseline.bins| == n && Increasing(ln)
    ensures Psi(baseline, current, n, ln) == 0.0 && Kl(baseline, current, n, ln) == 0.0
    ensures Classify(Psi(baseline, current, n, ln), minor, significant, major).NoDrift?
            <==> minor > 0.0 && significant > 0.0 && major > 0.0
  {
    if baseline.count > 0 {
      PsiSign(baseline, current, n, n, ln);
      KlSame(baseline, current, n, n, ln);
    }
  }

  lemma {:induction false} KlSame(baseline: Dist, current: Dist, n: nat, k: nat, ln: Ln)
    requires SameCounts(current, baseline) && |baseline.bins| == n && k <= n && baseline.count > 0 && ln(1.0) == 0.0
    ensures KlSum(baseline, current, k, ln) == 0.0
  {
    if k > 0 {
      KlSame(baseline, current, n, k - 1, ln);
      var w := Weight(baseline, k - 1, EPSILON);
      assert w / w == 1.0;
    }
  }

  // ----- the two measures together

  lemma TermsAddUp(b: real, c: real, ln: Ln)
    requires b > 0.0 && c > 0.0 && forall x :: x > 0.0 ==> ln(1.0 / x) == -ln(x)
    ensures PsiTerm(b, c, ln) == KlTerm(b, c, ln) + KlTerm(c, b, ln)
  {
    QuotientAgainstOne(c, b);
    Inverse(b, c);
    var l := ln(c / b);
    assert ln(b / c) == -l;
    assert (c - b) * l == c * l + b * -l;
  }

  /** PSI is KL one way plus KL the other way. */
  lemma {:induction false} PsiIsTwoKl(baseline: Dist, current: Dist, n: nat, k: nat, ln: Ln)
    requires baseline.count > 0 && current.count > 0 && k <= n <= |baseline.bins| && n <= |current.bins|
    requires forall x :: x > 0.0 ==> ln(1.0 / x) == -ln(x)
    ensures PsiSum(baseline, current, n, k, ln) == KlSum(baseline, current, k, ln) + KlSum(current, baseline, k, ln)
  {
    if k > 0 {
      PsiIsTwoKl(baseline, current, n, k - 1, ln);
      WeightPresent(baseline, k - 1, 1.0 / n as real, EPSILON);
      WeightPresent(current, k - 1, 0.0, EPSILON);
      TermsAddUp(Weight(baseline, k - 1, EPSILON), Weight(current, k - 1, EPSILON), ln);
    }
  }

  function WeightSum(d: Dist, k: nat): real
    requires d.count > 0
  {
    if k == 0 then 0.0 else WeightSum(d, k - 1) + Weight(d, k - 1, EPSILON)
  }

  lemma TermBound(b: real, c: real, ln: Ln)
    requires b > 0.0 && c > 0.0 && ln(c / b) >= 1.0 - 1.0 / (c / b)
    ensures KlTerm(b, c, ln) >= c - b
  {
    QuotientAgainstOne(c, b);
    Inverse(b, c);
    var l, q := ln(c / b), b / c;
    assert q * c == b && l >= 1.0 - q;
    TimesAtLeast(c, l, 1.0 - q);
    assert c * (1.0 - q) == c - b;
  }

  lemma TimesAtLeast(c: real, x: real, y: real)
    requires c > 0.0 && x >= y
    ensures c * x >= c * y
  {
    if x > y {
      Positive(c, x - y);
      assert c * (x - y) == c * x - c * y;
    }
  }

  /** With ln x >= 1 - 1/x, KL is at least what the floors add to one side more than to the other. */
  lemma {:induction false} KlAtLeast(baseline: Dist, current: Dist, k: nat, ln: Ln)
    requires baseline.count > 0 && current.count > 0 && forall x :: x > 0.0 ==> ln(x) >= 1.0 - 1.0 / x
    ensures KlSum(baseline, current, k, ln) >= WeightSum(current, k) - WeightSum(baseline, k)
  {
    if k > 0 {
      KlAtLeast(baseline, current, k - 1, ln);
      var b, c := Weight(baseline, k - 1, EPSILON), Weight(current, k - 1, EPSILON);
      QuotientAgainstOne(c, b);
      TermBound(b, c, ln);
    }
  }

  /** Where no floor acts. */
  ghost predicate Unfloored(d: Dist) {
    d.count > 0 && forall i :: 0 <= i < |d.bins| ==> d.bins[i].count as real / d.count as real >= EPSILON
  }

  lemma {:induction false} WeightSumIsShares(d: Dist, k: nat)
    requires Unfloored(d) && k <= |d.bins|
    ensures WeightSum(d, k) == Moments.Sum(Weights(d.bins[..k], d.count))
  {
    if k > 0 {
      WeightSumIsShares(d, k - 1);
      assert Weights(d.bins[..k], d.count)[..k - 1] == Weights(d.bins[..k - 1], d.count);
    }
  }

  /** So KL is never negative when no weight is floored. */
  lemma {:induction false} KlNotNegative(baseline: Dist, current: Dist, ln: Ln)
    requires Unfloored(baseline) && Unfloored(current) && |baseline.bins| == |current.bins|
    requires Conserved(baseline) && Conserved(current) && forall x :: x > 0.0 ==> ln(x) >= 1.0 - 1.0 / x
    ensures Kl(baseline, current, |baseline.bins|, ln) >= 0.0
  {
    var n := |baseline.bins|;
    KlAtLeast(baseline, current, n, ln);
    WeightSumIsShares(baseline, n);
    WeightSumIsShares(current, n);
    assert baseline.bins[..n] == baseline.bins && current.bins[..n] == current.bins;
    WeightsAreShares(baseline);
    WeightsAreShares(current);
  }

  /** One quarter and three quarters against three quarters and one: PSI is ln 3, and KL half of it. */
  lemma {:induction false} QuartersShifted(a: Dist, b: Dist, ln: Ln)
    requires |a.bins| == |b.bins| == 2 && a.count == b.count == 4
    requires a.bins[0].count == b.bins[1].count == 1 && a.bins[1].count == b.bins[0].count == 3
    requires ln(1.0 / 3.0) == -ln(3.0)
    ensures Psi(a, b, 2, ln) == ln(3.0) && Kl(a, b, 2, ln) == 0.5 * ln(3.0)
  {
    assert 0.75 / 0.25 == 3.0 && 0.25 / 0.75 == 1.0 / 3.0;
    assert Weight(a, 0, 0.5) == 0.25 && Weight(a, 1, 0.5) == 0.75;
    assert Weight(b, 0, 0.0) == 0.75 && Weight(b, 1, 0.0) == 0.25;
    assert PsiSum(a, b, 2, 1, ln) == 0.5 * ln(3.0);
    assert KlSum(a, b, 1, ln) == 0.75 * ln(3.0);
  }

  /** The weight of a bin is its share, or 0.0001 when that is more. */
  lemma WeightIsShare(d: Dist, i: nat, missing: real)
    requires d.count > 0 && i < |d.bins|
    ensures var share := d.bins[i].count as real / d.count as real;
            && (share >= 0.0001 ==> Weight(d, i, missing) == share)
            && (share <= 0.0001 ==> Weight(d, i, missing) == 0.0001)
  {
  }
}
