/** The two binning routines of the drift monitor, which must agree, and the counts they conserve.
    Values are exact reals. */
module Binning {
  import opened Common
  import Moments

  datatype Bin = Bin(lower: real, upper: real, count: nat)

  datatype Dist = Dist(feature: string, bins: seq<Bin>, count: nat)

  function CountSum(bins: seq<Bin>): nat {
    if bins == [] then 0 else CountSum(bins[..|bins| - 1]) + bins[|bins| - 1].count
  }

  /** Go's conversion to int: towards zero. */
  function Trunc(x: real): int {
    if x >= 0.0 then x.Floor else -((-x).Floor)
  }

  function Clamp(i: int, n: nat): nat
    requires n > 0
  {
    if i >= n then n - 1 else if i < 0 then 0 else i
  }

  // ----- building a baseline

  function MinOf(values: seq<real>): (m: real)
    requires values != []
    ensures m in values && forall v :: v in values ==> m <= v
  {
    var n := |values| - 1;
    assert values == values[..n] + [values[n]];
    if n == 0 then values[0]
    else
      var m := MinOf(values[..n]);
      if values[n] < m then values[n] else m
  }

  function MaxOf(values: seq<real>): (m: real)
    requires values != []
    ensures m in values && forall v :: v in values ==> v <= m
  {
    var n := |values| - 1;
    assert values == values[..n] + [values[n]];
    if n == 0 then values[0]
    else
      var m := MaxOf(values[..n]);
      if values[n] > m then values[n] else m
  }

  /** Equal-width bins: where the first starts and how wide each is. A constant sample gets [0, 1). */
  datatype Scale = Scale(low: real, width: real)

  function ScaleOf(values: seq<real>, n: nat): (s: Scale)
    requires values != [] && n > 0
    ensures s.width > 0.0
  {
    var low, high := MinOf(values), MaxOf(values);
    var width := (high - low) / n as real;
    if width == 0.0 then Scale(0.0, 1.0 / n as real) else Scale(low, width)
  }

  function Edge(s: Scale, i: int): real {
    s.low + i as real * s.width
  }

  function EmptyBin(s: Scale, i: int): Bin {
    Bin(Edge(s, i), Edge(s, i + 1), 0)
  }

  function Index(s: Scale, n: nat, v: real): nat
    requires n > 0 && s.width > 0.0
  {
    Clamp(Trunc((v - s.low) / s.width), n)
  }

  /** How many of the values fall into bin `i`. */
  function Tally(s: Scale, n: nat, values: seq<real>, i: nat): nat
    requires n > 0 && s.width > 0.0
  {
    if values == [] then 0
    else
      var k := |values| - 1;
      Tally(s, n, values[..k], i) + if Index(s, n, values[k]) == i then 1 else 0
  }

  /** The bins of the scale, each with its share of the values. */
  function Filled(s: Scale, n: nat, values: seq<real>): seq<Bin>
    requires n > 0 && s.width > 0.0
  {
    seq(n, i requires 0 <= i < n => EmptyBin(s, i).(count := Tally(s, n, values, i)))
  }

  function Empty(feature: string, n: nat): Dist {
    Dist(feature, seq(n, _ => Bin(0.0, 0.0, 0)), 0)
  }

  function Build(feature: string, values: seq<real>, n: nat): (d: Dist)
    requires n > 0
    ensures |d.bins| == n
  {
    if values == [] then Empty(feature, n)
    else
      Dist(feature, Filled(ScaleOf(values, n), n, values), |values|)
  }

  /** The rest of a built distribution: no measure reads it. The deviation is the root of the variance. */
  datatype Shape = Shape(mean: real, variance: real, weights: seq<real>)

  function Weights(bins: seq<Bin>, total: nat): (w: seq<real>)
    requires total > 0
    ensures |w| == |bins|
  {
    seq(|bins|, i requires 0 <= i < |bins| => bins[i].count as real / total as real)
  }

  method BuildDistribution(feature: string, values: seq<real>, n: nat) returns (d: Dist, shape: Shape)
    requires n > 0
    ensures d == Build(feature, values, n)
    ensures values == [] ==> shape == Shape(0.0, 0.0, seq(n, _ => 0.0))
    ensures values != [] ==>
              && shape.mean == Moments.Sum(values) / |values| as real
              && shape.variance == Moments.Spread(values, shape.mean) / |values| as real
              && shape.weights == Weights(d.bins, |values|)
  {
    if values == [] {
      return Empty(feature, n), Shape(0.0, 0.0, seq(n, _ => 0.0));
    }
    var minVal, maxVal := FindRange(values);
    var mean, variance := Moments.ComputeMoments(values);
    var binWidth := (maxVal - minVal) / n as real;
    if binWidth == 0.0 {
      binWidth := 1.0 / n as real;
      minVal := 0.0;
    }
    var bins := FillBins(Scale(minVal, binWidth), n, values);
    d := Dist(feature, bins, |values|);
    shape := Shape(mean, variance, Weights(bins, |values|));
  }

  lemma {:induction false} WeightsSum(bins: seq<Bin>, total: nat)
    requires total > 0
    ensures Moments.Sum(Weights(bins, total)) == CountSum(bins) as real / total as real
  {
    if bins != [] {
      var k := |bins| - 1;
      WeightsSum(bins[..k], total);
      assert Weights(bins, total)[..k] == Weights(bins[..k], total);
      AddQuotients(CountSum(bins[..k]) as real, bins[k].count as real, total as real);
    }
  }

  lemma AddQuotients(a: real, b: real, t: real)
    requires t > 0.0
    ensures a / t + b / t == (a + b) / t
  {
  }

  /** The weights of a distribution whose counts are conserved add up to 1. */
  lemma {:induction false} WeightsAreShares(d: Dist)
    requires Conserved(d) && d.count > 0
    ensures Moments.Sum(Weights(d.bins, d.count)) == 1.0
  {
    WeightsSum(d.bins, d.count);
    SelfQuotient(d.count as real);
  }

  lemma SelfQuotient(x: real)
    requires x > 0.0
    ensures x / x == 1.0
  {
  }

  method FindRange(values: seq<real>) returns (minVal: real, maxVal: real)
    requires values != []
    ensures minVal == MinOf(values) && maxVal == MaxOf(values)
  {
    minVal, maxVal := values[0], values[0];
    for i := 0 to |values|
      invariant minVal in values && forall j :: 0 <= j < i ==> minVal <= values[j]
      invariant maxVal in values && forall j :: 0 <= j < i ==> values[j] <= maxVal
    {
      if values[i] < minVal { minVal := values[i]; }
      if values[i] > maxVal { maxVal := values[i]; }
    }
  }

  method FillBins(s: Scale, n: nat, values: seq<real>) returns (bins: seq<Bin>)
    requires n > 0 && s.width > 0.0
    ensures bins == Filled(s, n, values)
  {
    bins := [];
    for i := 0 to n
      invariant |bins| == i && forall j :: 0 <= j < i ==> bins[j] == EmptyBin(s, j)
    {
      bins := bins + [Bin(s.low + i as real * s.width, s.low + (i + 1) as real * s.width, 0)];
    }
    assert bins == Filled(s, n, []);
    for k := 0 to |values|
      invariant bins == Filled(s, n, values[..k])
    {
      assert values[..k + 1][..k] == values[..k];
      var idx := Trunc((values[k] - s.low) / s.width);
      if idx >= n { idx := n - 1; }
      if idx < 0 { idx := 0; }
      bins := bins[idx := bins[idx].(count := bins[idx].count + 1)];
    }
    assert values[..|values|] == values;
  }

  // ----- observing

  /** The first bin whose half-open range holds the value, or |bins|. */
  function FirstBin(bins: seq<Bin>, v: real): (i: nat)
    ensures i <= |bins|
    ensures i < |bins| ==> bins[i].lower <= v < bins[i].upper
    ensures forall j :: 0 <= j < i ==> !(bins[j].lower <= v < bins[j].upper)
  {
    if bins == [] || bins[0].lower <= v < bins[0].upper then 0 else 1 + FirstBin(bins[1..], v)
  }

  /** The bin for a value: by the baseline's bounds, else by assuming values in [0, 1). */
  function FindBin(baseline: Option<Dist>, n: nat, v: real): int {
    if baseline.Some? && baseline.value.bins != [] && FirstBin(baseline.value.bins, v) < |baseline.value.bins| then
      FirstBin(baseline.value.bins, v)
    else if baseline.Some? && baseline.value.bins != []
            && v >= baseline.value.bins[|baseline.value.bins| - 1].lower then
      |baseline.value.bins| - 1
    else if n == 0 then -1
    else Trunc(v * n as real)
  }

  function Observed(baseline: Option<Dist>, d: Dist, v: real): Dist {
    var i := FindBin(baseline, |d.bins|, v);
    if 0 <= i < |d.bins| then
      d.(bins := d.bins[i := d.bins[i].(count := d.bins[i].count + 1)], count := d.count + 1)
    else d
  }

  function ObservedAll(baseline: Option<Dist>, d: Dist, values: seq<real>): Dist {
    if values == [] then d
    else Observed(baseline, ObservedAll(baseline, d, values[..|values| - 1]), values[|values| - 1])
  }

  // ----- counts are conserved

  ghost predicate Conserved(d: Dist) {
    d.count == CountSum(d.bins)
  }

  lemma {:induction false} CountSumUpdate(bins: seq<Bin>, i: nat, b: Bin)
    requires i < |bins|
    ensures CountSum(bins[i := b]) == CountSum(bins) - bins[i].count + b.count
  {
    var n := |bins| - 1;
    if i < n {
      CountSumUpdate(bins[..n], i, b);
      assert bins[i := b][..n] == bins[..n][i := b];
    } else {
      assert bins[i := b][..n] == bins[..n];
    }
  }

  lemma {:induction false} ObservedConserves(baseline: Option<Dist>, d: Dist, v: real)
    requires Conserved(d)
    ensures Conserved(Observed(baseline, d, v))
  {
    var i := FindBin(baseline, |d.bins|, v);
    if 0 <= i < |d.bins| {
      CountSumUpdate(d.bins, i, d.bins[i].(count := d.bins[i].count + 1));
    }
  }

  lemma {:induction false} EmptyConserves(bins: seq<Bin>)
    requires forall b :: b in bins ==> b.count == 0
    ensures CountSum(bins) == 0
  {
    if bins != [] {
      var n := |bins| - 1;
      assert bins[n] in bins && forall b :: b in bins[..n] ==> b in bins;
      EmptyConserves(bins[..n]);
    }
  }

  lemma {:induction false} FilledConserves(s: Scale, n: nat, values: seq<real>)
    requires n > 0 && s.width > 0.0
    ensures CountSum(Filled(s, n, values)) == |values|
  {
    if values == [] {
      EmptyConserves(Filled(s, n, values));
    } else {
      var k := |values| - 1;
      FilledConserves(s, n, values[..k]);
      var before, i := Filled(s, n, values[..k]), Index(s, n, values[k]);
      CountSumUpdate(before, i, before[i].(count := before[i].count + 1));
      assert Filled(s, n, values) == before[i := before[i].(count := before[i].count + 1)];
    }
  }

  lemma {:induction false} BuildConserves(feature: string, values: seq<real>, n: nat)
    requires n > 0
    ensures Conserved(Build(feature, values, n))
  {
    if values == [] {
      EmptyConserves(Empty(feature, n).bins);
    } else {
      FilledConserves(ScaleOf(values, n), n, values);
    }
  }

  // ----- the two binning routines agree

  lemma EdgeMonotone(s: Scale, a: int, b: int)
    requires s.width > 0.0 && a <= b
    ensures Edge(s, a) <= Edge(s, b)
  {
    var d := (b - a) as real;
    assert d * s.width >= 0.0;
    assert b as real == a as real + d;
  }

  /** A value at or above the low end lies in the cell its quotient truncates to. */
  lemma {:induction false} TruncCell(s: Scale, v: real)
    requires s.width > 0.0 && v >= s.low
    ensures var i := Trunc((v - s.low) / s.width); 0 <= i && Edge(s, i) <= v < Edge(s, i + 1)
  {
    var x, w := v - s.low, s.width;
    var q := x / w;
    assert q * w == x && q >= 0.0;
    var i := q.Floor;
    var below, above := q - i as real, (i + 1) as real - q;
    assert below * w >= 0.0 && above * w > 0.0;
    assert i as real * w == x - below * w && (i + 1) as real * w == x + above * w;
    assert Edge(s, i) == s.low + i as real * w && Edge(s, i + 1) == s.low + (i + 1) as real * w;
  }

  lemma {:induction false} FirstBinIs(bins: seq<Bin>, v: real, i: int)
    requires i >= 0 && forall j :: 0 <= j < |bins| ==> (bins[j].lower <= v < bins[j].upper <==> j == i)
    ensures FirstBin(bins, v) == if i < |bins| then i else |bins|
  {
    if i < |bins| {
      assert bins[i].lower <= v < bins[i].upper;
    }
  }

  /** For a value at or above the low end, the baseline search and the arithmetic index coincide. */
  lemma {:induction false} SameBin(feature: string, s: Scale, n: nat, values: seq<real>, count: nat, v: real)
    requires n > 0 && s.width > 0.0 && v >= s.low
    ensures FindBin(Some(Dist(feature, Filled(s, n, values), count)), n, v) == Index(s, n, v)
  {
    var bins, i := Filled(s, n, values), Trunc((v - s.low) / s.width);
    TruncCell(s, v);
    forall j | 0 <= j < n ensures bins[j].lower <= v < bins[j].upper <==> j == i {
      if j < i {
        EdgeMonotone(s, j + 1, i);
      } else if j > i {
        EdgeMonotone(s, i + 1, j);
      }
    }
    FirstBinIs(bins, v, i);
    if i >= n {
      EdgeMonotone(s, n - 1, i);
    }
  }

  lemma {:induction false} BelowAllBins(feature: string, s: Scale, n: nat, values: seq<real>, count: nat, v: real)
    requires n > 0 && s.width > 0.0 && v < s.low
    ensures FindBin(Some(Dist(feature, Filled(s, n, values), count)), n, v) == Trunc(v * n as real)
  {
    var bins := Filled(s, n, values);
    forall j | 0 <= j < n ensures v < bins[j].lower {
      EdgeMonotone(s, 0, j);
    }
  }

  /** When every value is put into the bin of the arithmetic index, observing counts like building. */
  lemma {:induction false} ObservedTally(baseline: Option<Dist>, feature: string, s: Scale, n: nat, values: seq<real>)
    requires n > 0 && s.width > 0.0
    requires forall v :: v in values ==> FindBin(baseline, n, v) == Index(s, n, v)
    ensures var d := ObservedAll(baseline, Empty(feature, n), values);
            |d.bins| == n && d.count == |values| && forall i :: 0 <= i < n ==> d.bins[i].count == Tally(s, n, values, i)
  {
    if values != [] {
      var k := |values| - 1;
      assert values[k] in values && forall v :: v in values[..k] ==> v in values;
      ObservedTally(baseline, feature, s, n, values[..k]);
    }
  }

  lemma {:induction false} TallyPermutation(s: Scale, n: nat, a: seq<real>, b: seq<real>, i: nat)
    requires n > 0 && s.width > 0.0 && multiset(a) == multiset(b)
    ensures Tally(s, n, a, i) == Tally(s, n, b, i)
  {
    if a == [] {
      assert |multiset(b)| == 0;
    } else {
      var k := |a| - 1;
      assert a == a[..k] + [a[k]];
      assert a[k] in multiset(b);
      var j :| 0 <= j < |b| && b[j] == a[k];
      WithoutOne(a, k);
      WithoutOne(b, j);
      assert a[..k] + a[k + 1..] == a[..k];
      TallyPermutation(s, n, a[..k], b[..j] + b[j + 1..], i);
      TallyRemove(s, n, b, j, i);
    }
  }

  lemma WithoutOne(s: seq<real>, j: nat)
    requires j < |s|
    ensures multiset(s[..j] + s[j + 1..]) == multiset(s) - multiset{s[j]}
  {
    assert s == s[..j] + [s[j]] + s[j + 1..];
  }

  lemma {:induction false} TallyRemove(s: Scale, n: nat, b: seq<real>, j: nat, i: nat)
    requires n > 0 && s.width > 0.0 && j < |b|
    ensures Tally(s, n, b, i) == Tally(s, n, b[..j] + b[j + 1..], i) + if Index(s, n, b[j]) == i then 1 else 0
  {
    var k := |b| - 1;
    if j < k {
      TallyRemove(s, n, b[..k], j, i);
      assert (b[..j] + b[j + 1..])[..k - 1] == b[..k][..j] + b[..k][j + 1..];
    } else {
      assert b[..j] + b[j + 1..] == b[..k];
    }
  }

  /** The same counts in every bin, and in total. */
  ghost predicate SameCounts(a: Dist, b: Dist) {
    a.count == b.count && |a.bins| == |b.bins| && forall i :: 0 <= i < |a.bins| ==> a.bins[i].count == b.bins[i].count
  }

  lemma {:induction false} ObservedNothing(baseline: Option<Dist>, d: Dist, values: seq<real>)
    requires forall v :: v in values ==> FindBin(baseline, |d.bins|, v) < 0
    ensures ObservedAll(baseline, d, values) == d
  {
    if values != [] {
      var k := |values| - 1;
      assert values[k] in values && forall v :: v in values[..k] ==> v in values;
      ObservedNothing(baseline, d, values[..k]);
    }
  }

  lemma Positive(a: real, b: real)
    requires a > 0.0 && b > 0.0
    ensures a * b > 0.0
  {
  }

  /** Multiplying by a positive number keeps the sign. */
  lemma SameSign(a: real, m: real)
    requires m > 0.0
    ensures a > 0.0 <==> a * m > 0.0
    ensures a < 0.0 <==> a * m < 0.0
  {
    if a > 0.0 {
      Positive(a, m);
    } else if a < 0.0 {
      Positive(-a, m);
      assert a * m == -((-a) * m);
    }
  }

  lemma Shifted(above: real, c: real, w: real, m: real)
    requires m > 0.0 && w * m == 1.0 && above == c + w
    ensures above > 0.0 <==> c * m > -1.0
  {
    SameSign(above, m);
    var x, y := above * m, c * m;
    assert x == y + w * m;
    assert x > 0.0 <==> y > -1.0;
  }

  lemma ProductSign(c: real, n: nat)
    requires n > 0
    ensures c < 0.0 ==> c / (1.0 / n as real) < 0.0
    ensures -1.0 / n as real < c < 0.0 ==> -1.0 < c * n as real < 0.0
    ensures c <= -1.0 / n as real ==> c * n as real <= -1.0
  {
    TimesCount(c, n as real, 1.0 / n as real, c / (1.0 / n as real));
  }

  lemma TimesCount(c: real, m: real, w: real, q: real)
    requires m > 0.0 && w > 0.0 && w * m == 1.0 && q * w == c
    ensures c > -w <==> c * m > -1.0
    ensures c < 0.0 <==> c * m < 0.0
    ensures c < 0.0 <==> q < 0.0
  {
    Shifted(c + w, c, w, m);
    SameSign(c, m);
    SameSign(q, w);
  }

  /** A constant sample `c` below zero is binned the same way twice only down to -1/n. */
  lemma {:induction false} NegativeConstant(feature: string, s: Scale, n: nat, values: seq<real>, count: nat, c: real)
    requires n > 0 && s == Scale(0.0, 1.0 / n as real) && c < 0.0
    ensures Index(s, n, c) == 0
    ensures FindBin(Some(Dist(feature, Filled(s, n, values), count)), n, c)
            == if c > -1.0 / n as real then 0 else Trunc(c * n as real)
    ensures c <= -1.0 / n as real ==> Trunc(c * n as real) < 0
  {
    ProductSign(c, n);
    BelowAllBins(feature, s, n, values, count, c);
  }

  /** A batch is its values one after the other, so batching does not matter. */
  lemma {:induction false} ObservedInBatches(baseline: Option<Dist>, d: Dist, first: seq<real>, second: seq<real>)
    ensures ObservedAll(baseline, d, first + second) == ObservedAll(baseline, ObservedAll(baseline, d, first), second)
  {
    if second == [] {
      assert first + second == first;
    } else {
      var k := |second| - 1;
      assert (first + second)[..|first + second| - 1] == first + second[..k];
      ObservedInBatches(baseline, d, first, second[..k]);
    }
  }

  /** Replaying the baseline sample, in any order, into an empty current distribution reproduces its
      counts exactly when the sample is not constant, or is constant above -1/n. (Below that, building
      clamps the value into the first bin while observing drops it.) */
  lemma {:induction false} ReplayReproduces(feature: string, values: seq<real>, replay: seq<real>, n: nat, base: Dist)
    requires n > 0 && values != [] && multiset(replay) == multiset(values) && base == Build(feature, values, n)
    ensures SameCounts(ObservedAll(Some(base), Empty(feature, n), replay), base)
            <==> MinOf(values) < MaxOf(values) || MinOf(values) > -1.0 / n as real
  {
    var s := ScaleOf(values, n);
    assert |replay| == |values| by { assert |multiset(replay)| == |multiset(values)|; }
    forall v | v in replay ensures v in values {
      assert v in multiset(values);
    }
    if MinOf(values) < MaxOf(values) || MinOf(values) > -1.0 / n as real {
      forall v | v in replay ensures FindBin(Some(base), n, v) == Index(s, n, v) {
        RangeWidth(values, n);
        if v >= s.low {
          SameBin(feature, s, n, values, base.count, v);
        } else {
          NegativeConstant(feature, s, n, values, base.count, v);
        }
      }
      ObservedTally(Some(base), feature, s, n, replay);
      forall i | 0 <= i < n {
        TallyPermutation(s, n, replay, values, i);
      }
    } else {
      ReplayDropped(feature, values, replay, n, base);
    }
  }

  /** A constant sample at or below -1/n is dropped whole. */
  lemma {:induction false} ReplayDropped(feature: string, values: seq<real>, replay: seq<real>, n: nat, base: Dist)
    requires n > 0 && values != [] && multiset(replay) == multiset(values) && base == Build(feature, values, n)
    requires MinOf(values) == MaxOf(values) <= -1.0 / n as real
    ensures ObservedAll(Some(base), Empty(feature, n), replay) == Empty(feature, n)
  {
    LowConstantHasNoBin(feature, values, n);
    forall v | v in replay ensures v == MinOf(values) {
      SampleValue(values, replay, v);
    }
    ObservedNothing(Some(base), Empty(feature, n), replay);
  }

  lemma SampleValue(values: seq<real>, replay: seq<real>, v: real)
    requires values != [] && multiset(replay) == multiset(values) && v in replay
    ensures MinOf(values) <= v <= MaxOf(values)
  {
    assert v in multiset(replay) && v in multiset(values);
    assert v in values;
  }

  lemma LowConstantHasNoBin(feature: string, values: seq<real>, n: nat)
    requires n > 0 && values != [] && MinOf(values) == MaxOf(values) <= -1.0 / n as real
    ensures FindBin(Some(Build(feature, values, n)), n, MinOf(values)) < 0
  {
    RangeWidth(values, n);
    UnitShare(n);
    NegativeConstant(feature, ScaleOf(values, n), n, values, |values|, MinOf(values));
  }

  /** Such a sample: a single -1. */
  lemma {:induction false} MinusOneIsDropped(feature: string, n: nat)
    requires n > 0
    ensures var base := Build(feature, [-1.0], n);
            base.count == 1 && ObservedAll(Some(base), Empty(feature, n), [-1.0]).count == 0
  {
    var values := [-1.0];
    assert MinOf(values) == -1.0 && MaxOf(values) == -1.0;
    UnitShare(n);
    ReplayDropped(feature, values, values, n, Build(feature, values, n));
  }

  lemma UnitShare(n: nat)
    requires n > 0
    ensures -1.0 <= -1.0 / n as real < 0.0
  {
    var m := n as real;
    assert 1.0 / m * m == 1.0;
  }

  lemma RangeWidth(values: seq<real>, n: nat)
    requires values != [] && n > 0
    ensures MinOf(values) < MaxOf(values) ==> ScaleOf(values, n).low == MinOf(values)
    ensures MinOf(values) == MaxOf(values) ==> ScaleOf(values, n) == Scale(0.0, 1.0 / n as real)
  {
  }

  // ----- what the bins cover and count

  lemma ScaledEdge(low: real, high: real, n: real, w: real)
    requires n > 0.0 && w == (high - low) / n
    ensures low + n * w == high
  {
    assert w * n == high - low;
  }

  /** Equal bins from `s.low` on, each beginning where the one before ends. */
  lemma FilledTiles(s: Scale, n: nat, values: seq<real>)
    requires n > 0 && s.width > 0.0
    ensures var bins := Filled(s, n, values);
            && bins[0].lower == s.low && bins[n - 1].upper == s.low + n as real * s.width
            && (forall i :: 0 <= i < n - 1 ==> bins[i].upper == bins[i + 1].lower)
            && (forall i :: 0 <= i < n ==> bins[i].upper - bins[i].lower == s.width)
  {
    assert 0 as real * s.width == 0.0;
    forall i | 0 <= i < n ensures Edge(s, i + 1) - Edge(s, i) == s.width {
      NextEdge(s, i);
    }
  }

  /** The n bins of a sample that is not constant cover its range exactly: from the minimum to the maximum, each
      beginning where the one before ends, all of the same width. */
  lemma {:induction false} BinsCoverRange(feature: string, values: seq<real>, n: nat)
    requires n > 0 && values != [] && MinOf(values) < MaxOf(values)
    ensures var bins := Build(feature, values, n).bins;
            && bins[0].lower == MinOf(values) && bins[n - 1].upper == MaxOf(values)
            && (forall i :: 0 <= i < n - 1 ==> bins[i].upper == bins[i + 1].lower)
            && (forall i :: 0 <= i < n ==> bins[i].upper - bins[i].lower == (MaxOf(values) - MinOf(values)) / n as real)
  {
    ScaleIs(values, n);
    RangeTiles(MinOf(values), MaxOf(values), n, values);
  }

  lemma ScaleIs(values: seq<real>, n: nat)
    requires n > 0 && values != [] && MinOf(values) < MaxOf(values)
    ensures ScaleOf(values, n) == Scale(MinOf(values), (MaxOf(values) - MinOf(values)) / n as real)
  {
    RangeDivided(MinOf(values), MaxOf(values), n);
  }

  lemma RangeTiles(low: real, high: real, n: nat, values: seq<real>)
    requires n > 0 && low < high && (high - low) / n as real > 0.0
    ensures var bins := Filled(Scale(low, (high - low) / n as real), n, values);
            && bins[0].lower == low && bins[n - 1].upper == high
            && (forall i :: 0 <= i < n - 1 ==> bins[i].upper == bins[i + 1].lower)
            && (forall i :: 0 <= i < n ==> bins[i].upper - bins[i].lower == (high - low) / n as real)
  {
    ScaledEdge(low, high, n as real, (high - low) / n as real);
    FilledTiles(Scale(low, (high - low) / n as real), n, values);
  }

  lemma RangeDivided(low: real, high: real, n: nat)
    requires n > 0 && low < high
    ensures (high - low) / n as real > 0.0
  {
  }

  lemma NextEdge(s: Scale, i: int)
    ensures Edge(s, i + 1) - Edge(s, i) == s.width
  {
    assert (i + 1) as real == i as real + 1.0;
    assert (i as real + 1.0) * s.width == i as real * s.width + s.width;
  }

  /** Those of a constant sample cover [0, 1). */
  lemma {:induction false} ConstantCoversUnit(feature: string, values: seq<real>, n: nat)
    requires n > 0 && values != [] && MinOf(values) == MaxOf(values)
    ensures var bins := Build(feature, values, n).bins;
            && bins[0].lower == 0.0 && bins[n - 1].upper == 1.0
            && (forall i :: 0 <= i < n - 1 ==> bins[i].upper == bins[i + 1].lower)
            && (forall i :: 0 <= i < n ==> bins[i].upper - bins[i].lower == 1.0 / n as real)
  {
    RangeWidth(values, n);
    ScaledEdge(0.0, 1.0, n as real, 1.0 / n as real);
    FilledTiles(ScaleOf(values, n), n, values);
  }

  /** The value is in the bin's half-open range; the last bin also takes its upper end. */
  predicate InBin(bins: seq<Bin>, i: int, v: real)
    requires 0 <= i < |bins|
  {
    bins[i].lower <= v && (v < bins[i].upper || (i == |bins| - 1 && v == bins[i].upper))
  }

  ghost function InBinAt(bins: seq<Bin>, i: int, values: seq<real>): int -> bool
    requires 0 <= i < |bins|
  {
    k => 0 <= k < |values| && InBin(bins, i, values[k])
  }

  ghost function IndexAt(s: Scale, n: nat, values: seq<real>, i: int): int -> bool
    requires n > 0 && s.width > 0.0
  {
    k => 0 <= k < |values| && Index(s, n, values[k]) == i
  }

  lemma {:induction false} TallyIsPlaces(s: Scale, n: nat, values: seq<real>, i: nat, m: nat)
    requires n > 0 && s.width > 0.0 && m <= |values|
    ensures Tally(s, n, values[..m], i) == |Places(m, IndexAt(s, n, values, i))|
  {
    if m > 0 {
      TallyIsPlaces(s, n, values, i, m - 1);
      PlacesGrow(m, IndexAt(s, n, values, i));
      assert values[..m][..m - 1] == values[..m - 1];
    }
  }

  /** The count of a bin is the number of values in its range. */
  lemma {:induction false} BinCountsRange(feature: string, values: seq<real>, n: nat, i: nat)
    requires n > 0 && values != [] && MinOf(values) < MaxOf(values) && i < n
    ensures var bins := Build(feature, values, n).bins;
            bins[i].count == |Places(|values|, InBinAt(bins, i, values))|
  {
    var s, bins := ScaleOf(values, n), Build(feature, values, n).bins;
    TallyIsPlaces(s, n, values, i, |values|);
    assert values[..|values|] == values;
    forall k | 0 <= k < |values| ensures IndexAt(s, n, values, i)(k) == InBinAt(bins, i, values)(k) {
      assert values[k] in values;
      BinOfValue(feature, values, n, i, values[k]);
    }
    PlacesSame(|values|, IndexAt(s, n, values, i), InBinAt(bins, i, values));
  }

  lemma {:induction false} BinOfValue(feature: string, values: seq<real>, n: nat, i: nat, v: real)
    requires n > 0 && values != [] && MinOf(values) < MaxOf(values) && i < n && v in values
    ensures Index(ScaleOf(values, n), n, v) == i <==> InBin(Build(feature, values, n).bins, i, v)
  {
    var s, bins := ScaleOf(values, n), Build(feature, values, n).bins;
    RangeWidth(values, n);
    BinsCoverRange(feature, values, n);
    TruncCell(s, v);
    var q := Trunc((v - s.low) / s.width);
    assert bins[i].lower == Edge(s, i) && bins[i].upper == Edge(s, i + 1) && v <= Edge(s, n);
    if q < i {
      EdgeMonotone(s, q + 1, i);
    } else if q > i {
      EdgeMonotone(s, i + 1, q);
      if q >= n {
        EdgeMonotone(s, n, q);
      }
    }
  }

  // ----- where an observed value goes

  /** Against the baseline of a sample that is not constant: to the bin whose range holds it, to the last bin from
      the maximum on, and below the minimum to where the fallback puts it. */
  lemma {:induction false} ObservedBin(feature: string, values: seq<real>, n: nat, v: real)
    requires n > 0 && values != [] && MinOf(values) < MaxOf(values)
    ensures var base := Build(feature, values, n);
            var i := FindBin(Some(base), n, v);
            && (forall j :: 0 <= j < n && base.bins[j].lower <= v < base.bins[j].upper ==> i == j)
            && (v >= MaxOf(values) ==> i == n - 1)
            && (v < MinOf(values) ==> i == Trunc(v * n as real))
  {
    var base, s := Build(feature, values, n), ScaleOf(values, n);
    RangeWidth(values, n);
    BinsCoverRange(feature, values, n);
    if v < MinOf(values) {
      BelowAllBins(feature, s, n, values, base.count, v);
      forall j | 0 <= j < n ensures v < base.bins[j].lower {
        EdgeMonotone(s, 0, j);
      }
    } else {
      SameBin(feature, s, n, values, base.count, v);
      TruncCell(s, v);
      var q := Trunc((v - s.low) / s.width);
      forall j | 0 <= j < n && base.bins[j].lower <= v < base.bins[j].upper ensures q == j {
        if q < j {
          EdgeMonotone(s, q + 1, j);
        } else if q > j {
          EdgeMonotone(s, j + 1, q);
        }
      }
      if v >= MaxOf(values) && q < n {
        EdgeMonotone(s, q + 1, n);
      }
    }
  }

  /** Without a baseline [0, 1) is divided evenly. */
  lemma {:induction false} UnitBin(n: nat, v: real, i: nat)
    requires n > 0 && i < n && i as real / n as real <= v < (i + 1) as real / n as real
    ensures FindBin(None, n, v) == i
  {
    UnitIndex(i as real, (i + 1) as real, n as real, v);
  }

  lemma UnitIndex(a: real, b: real, n: real, v: real)
    requires n > 0.0 && a / n <= v < b / n
    ensures a <= v * n < b
  {
    var x, y := a / n, b / n;
    assert x * n == a && y * n == b;
    TimesKeepsOrder(x, v, n);
    TimesKeepsOrder(v, y, n);
  }

  lemma TimesKeepsOrder(x: real, y: real, n: real)
    requires n > 0.0
    ensures x <= y ==> x * n <= y * n
    ensures x < y ==> x * n < y * n
  {
    if x < y {
      Positive(y - x, n);
      assert (y - x) * n == y * n - x * n;
    }
  }
}
