/** The area under the ROC curve, swept threshold by threshold, is the Mann-Whitney pair statistic. */
module Roc {
  import opened Common

  datatype Entry = Entry(score: real, isThreat: bool, threshold: real, modelVersion: string)

  /** An entry with its ground truth. */
  datatype Labelled = Labelled(entry: Entry, actual: bool)

  function SafeDiv(a: real, b: real): real {
    if b == 0.0 then 0.0 else a / b
  }

  // ----- counting

  /** Entries with the given truth and a score of at least (or, strictly, more than) `t`. */
  function Count(es: seq<Labelled>, actual: bool, t: real, strict: bool): nat {
    if es == [] then 0
    else
      var n := |es| - 1;
      var s := es[n].entry.score;
      Count(es[..n], actual, t, strict) + if es[n].actual == actual && (s > t || (s == t && !strict)) then 1 else 0
  }

  function Total(es: seq<Labelled>, actual: bool): nat {
    if es == [] then 0
    else Total(es[..|es| - 1], actual) + if es[|es| - 1].actual == actual then 1 else 0
  }

  // ----- the pair statistic, doubled to stay in the integers

  function Pair(positive: real, negative: real): nat {
    if positive > negative then 2 else if positive == negative then 1 else 0
  }

  /** One negative score against every positive. */
  function Beats(es: seq<Labelled>, negative: real): nat {
    if es == [] then 0
    else
      var n := |es| - 1;
      Beats(es[..n], negative) + if es[n].actual then Pair(es[n].entry.score, negative) else 0
  }

  /** Every negative of `es` against every positive of `all`. */
  function DoubledPairs(es: seq<Labelled>, all: seq<Labelled>): nat {
    if es == [] then 0
    else
      var n := |es| - 1;
      DoubledPairs(es[..n], all) + if es[n].actual then 0 else Beats(all, es[n].entry.score)
  }

  /** The Mann-Whitney statistic, DoubledPairs / (2 * positives * negatives): the chance that a random positive
      outscores a random negative, a tie counting one half. */
  ghost function MannWhitney(es: seq<Labelled>): real
    requires Total(es, true) > 0 && Total(es, false) > 0
  {
    Scaled(DoubledPairs(es, es), Total(es, true), Total(es, false))
  }

  // ----- how the sweep adds the pairs up

  /** The pairs whose negative scores at least (strictly: more than) `t`. */
  function PairsFrom(es: seq<Labelled>, all: seq<Labelled>, t: real, strict: bool): nat {
    if es == [] then 0
    else
      var n := |es| - 1;
      var s := es[n].entry.score;
      PairsFrom(es[..n], all, t, strict)
      + if !es[n].actual && (s > t || (s == t && !strict)) then Beats(all, s) else 0
  }

  lemma {:induction false} BeatsCounts(all: seq<Labelled>, t: real)
    ensures Beats(all, t) == Count(all, true, t, false) + Count(all, true, t, true)
  {
    if all != [] {
      BeatsCounts(all[..|all| - 1], t);
    }
  }

  /** Lowering the threshold onto `t` adds the negatives at `t`, each with the same number of pairs. */
  lemma {:induction false} PairsAt(es: seq<Labelled>, all: seq<Labelled>, t: real)
    ensures Count(es, false, t, false) >= Count(es, false, t, true)
    ensures PairsFrom(es, all, t, false)
            == PairsFrom(es, all, t, true) + (Count(es, false, t, false) - Count(es, false, t, true)) * Beats(all, t)
  {
    if es != [] {
      var n := |es| - 1;
      PairsAt(es[..n], all, t);
      var before, b := Count(es[..n], false, t, false) - Count(es[..n], false, t, true), Beats(all, t);
      assert (before + 1) * b == before * b + b;
    }
  }

  /** No score lies strictly between two neighbouring thresholds. */
  ghost predicate Neighbours(es: seq<Labelled>, hi: real, lo: real) {
    forall e :: e in es ==> (e.entry.score > lo <==> e.entry.score >= hi)
  }

  lemma {:induction false} NeighboursCount(es: seq<Labelled>, all: seq<Labelled>, hi: real, lo: real)
    requires Neighbours(es, hi, lo)
    ensures forall actual :: Count(es, actual, lo, true) == Count(es, actual, hi, false)
    ensures PairsFrom(es, all, lo, true) == PairsFrom(es, all, hi, false)
  {
    if es != [] {
      var n := |es| - 1;
      assert es[n] in es && forall e :: e in es[..n] ==> e in es;
      NeighboursCount(es[..n], all, hi, lo);
    }
  }

  lemma {:induction false} NothingAbove(es: seq<Labelled>, all: seq<Labelled>, top: real)
    requires forall e :: e in es ==> e.entry.score <= top
    ensures forall actual :: Count(es, actual, top, true) == 0
    ensures PairsFrom(es, all, top, true) == 0
  {
    if es != [] {
      var n := |es| - 1;
      assert es[n] in es && forall e :: e in es[..n] ==> e in es;
      NothingAbove(es[..n], all, top);
    }
  }

  lemma {:induction false} EverythingFrom(es: seq<Labelled>, all: seq<Labelled>, bottom: real)
    requires forall e :: e in es ==> e.entry.score >= bottom
    ensures forall actual :: Count(es, actual, bottom, false) == Total(es, actual)
    ensures PairsFrom(es, all, bottom, false) == DoubledPairs(es, all)
  {
    if es != [] {
      var n := |es| - 1;
      assert es[n] in es && forall e :: e in es[..n] ==> e in es;
      EverythingFrom(es[..n], all, bottom);
    }
  }

  // ----- the sweep

  /** The distinct scores, highest first. */
  ghost predicate Thresholds(es: seq<Labelled>, ts: seq<real>) {
    && (forall i, j :: 0 <= i < j < |ts| ==> ts[i] > ts[j])
    && (forall e :: e in es ==> e.entry.score in ts)
    && (forall t :: t in ts ==> exists e :: e in es && e.entry.score == t)
  }

  /** Doubled area, in count units, under the first `k` segments of the curve. */
  function Area(es: seq<Labelled>, ts: seq<real>, k: nat): int
    requires k <= |ts|
  {
    if k == 0 then 0
    else Area(es, ts, k - 1) + SegmentArea(es, ts, k)
  }

  function Strip(width: int, heights: int): int {
    width * heights
  }

  /** How many entries with the given truth the first `k` thresholds have let in. */
  function Reached(es: seq<Labelled>, ts: seq<real>, actual: bool, k: nat): nat
    requires k <= |ts|
  {
    if k == 0 then 0 else Count(es, actual, ts[k - 1], false)
  }

  lemma {:induction false} AreaIsPairs(es: seq<Labelled>, ts: seq<real>, k: nat)
    requires Thresholds(es, ts) && k <= |ts|
    ensures Area(es, ts, k) == if k == 0 then 0 else PairsFrom(es, es, ts[k - 1], false)
  {
    if k > 0 {
      AreaIsPairs(es, ts, k - 1);
      var t := ts[k - 1];
      PairsAt(es, es, t);
      BeatsCounts(es, t);
      if k == 1 {
        forall e | e in es ensures e.entry.score <= t {
          var i :| 0 <= i < |ts| && ts[i] == e.entry.score;
        }
        NothingAbove(es, es, t);
      } else {
        forall e | e in es ensures e.entry.score > t <==> e.entry.score >= ts[k - 2] {
          var i :| 0 <= i < |ts| && ts[i] == e.entry.score;
        }
        NeighboursCount(es, es, ts[k - 2], t);
      }
    }
  }

  /** After the last threshold everything has been let in. */
  lemma {:induction false} WholeArea(es: seq<Labelled>, ts: seq<real>)
    requires Thresholds(es, ts) && es != []
    ensures ts != [] && Area(es, ts, |ts|) == DoubledPairs(es, es)
    ensures forall actual :: Reached(es, ts, actual, |ts|) == Total(es, actual)
  {
    assert es[0].entry.score in ts;
    AreaIsPairs(es, ts, |ts|);
    forall e | e in es ensures e.entry.score >= ts[|ts| - 1] {
      var i :| 0 <= i < |ts| && ts[i] == e.entry.score;
    }
    EverythingFrom(es, es, ts[|ts| - 1]);
  }

  // ----- the statistic is a proportion

  lemma {:induction false} PairsBound(es: seq<Labelled>, all: seq<Labelled>, negative: real)
    ensures Beats(all, negative) <= 2 * Total(all, true)
    ensures DoubledPairs(es, all) <= 2 * Total(all, true) * Total(es, false)
    decreases |es| + |all|
  {
    if all != [] {
      BeatsBound(all, negative);
    }
    if es != [] {
      var n := |es| - 1;
      PairsBound(es[..n], all, negative);
      BeatsBound(all, es[n].entry.score);
      var p, q := 2 * Total(all, true), Total(es[..n], false);
      assert p * (q + 1) == p * q + p;
    }
  }

  lemma {:induction false} BeatsBound(all: seq<Labelled>, negative: real)
    ensures Beats(all, negative) <= 2 * Total(all, true)
  {
    if all != [] {
      BeatsBound(all[..|all| - 1], negative);
    }
  }

  lemma {:induction false} MannWhitneyBounds(es: seq<Labelled>)
    requires Total(es, true) > 0 && Total(es, false) > 0
    ensures 0.0 <= MannWhitney(es) <= 1.0
  {
    PairsBound(es, es, 0.0);
    var d := 2 * Total(es, true) * Total(es, false);
    assert d > 0;
    Proportion(DoubledPairs(es, es) as real, d as real);
  }

  lemma Proportion(a: real, b: real)
    requires 0.0 <= a <= b && b > 0.0
    ensures 0.0 <= a / b <= 1.0
  {
  }

  // ----- the program

  method SortDescending(s: array<real>)
    modifies s
    ensures multiset(s[..]) == multiset(old(s[..]))
    ensures forall i, j :: 0 <= i < j < s.Length ==> s[i] >= s[j]
  {
    var i := 1;
    while i < s.Length
      invariant s.Length > 0 ==> 1 <= i <= s.Length
      invariant multiset(s[..]) == multiset(old(s[..]))
      invariant forall a, b :: 0 <= a < b < i <= s.Length ==> s[a] >= s[b]
    {
      Insert(s, i);
      i := i + 1;
    }
  }

  /** Shifts smaller elements of the sorted prefix right and drops s[i] into the gap. */
  method Insert(s: array<real>, i: nat)
    requires 0 < i < s.Length
    requires forall a, b :: 0 <= a < b < i ==> s[a] >= s[b]
    modifies s
    ensures multiset(s[..]) == multiset(old(s[..]))
    ensures forall a, b :: 0 <= a < b <= i ==> s[a] >= s[b]
  {
    var key := s[i];
    ghost var was := s[..];
    var j := Shift(s, i, key);
    s[j + 1] := key;
    InsertedSorted(was, s[..], i, j + 1);
  }

  method Shift(s: array<real>, i: nat, key: real) returns (j: int)
    requires i < s.Length
    modifies s
    ensures -1 <= j < i && (j >= 0 ==> old(s[j]) >= key)
    ensures forall k :: 0 <= k <= j || i < k < s.Length ==> s[k] == old(s[k])
    ensures forall k :: j + 1 < k <= i ==> s[k] == old(s[k - 1])
    ensures forall k :: j < k < i ==> old(s[k]) < key
  {
    j := i - 1;
    while j >= 0 && s[j] < key
      invariant -1 <= j < i
      invariant forall k :: 0 <= k <= j + 1 || i < k < s.Length ==> s[k] == old(s[k])
      invariant forall k :: j + 1 < k <= i ==> s[k] == old(s[k - 1])
      invariant forall k :: j < k < i ==> old(s[k]) < key
    {
      s[j + 1] := s[j];
      j := j - 1;
    }
  }

  /** What the shift leaves: the element at `i` taken out and put in at `k`. */
  ghost predicate Moved(was: seq<real>, now: seq<real>, i: nat, k: nat)
    requires k <= i < |was|
  {
    |now| == |was|
    && forall a :: 0 <= a < |was| ==> now[a] == was[if k < a <= i then a - 1 else if a == k then i else a]
  }

  lemma InsertedSorted(was: seq<real>, now: seq<real>, i: nat, k: nat)
    requires k <= i < |was| && Moved(was, now, i, k)
    requires forall a, b :: 0 <= a < b < i ==> was[a] >= was[b]
    requires forall a :: k <= a < i ==> was[a] < was[i]
    requires k > 0 ==> was[k - 1] >= was[i]
    ensures multiset(now) == multiset(was)
    ensures forall a, b :: 0 <= a < b <= i ==> now[a] >= now[b]
  {
    Rearranged(was[..k], [was[i]], was[k..i], was[i + 1..]);
    assert now == was[..k] + [was[i]] + was[k..i] + was[i + 1..];
    assert was == was[..k] + was[k..i] + [was[i]] + was[i + 1..];
  }

  lemma Rearranged<T>(a: seq<T>, x: seq<T>, m: seq<T>, b: seq<T>)
    ensures multiset(a + x + m + b) == multiset(a + m + x + b)
  {
    assert multiset(a + x + m + b) == multiset(a) + multiset(x) + multiset(m) + multiset(b);
    assert multiset(a + m + x + b) == multiset(a) + multiset(m) + multiset(x) + multiset(b);
  }

  datatype Point = Point(tpr: real, fpr: real)

  method CollectThresholds(es: seq<Labelled>) returns (thresholds: array<real>)
    ensures fresh(thresholds) && Thresholds(es, thresholds[..])
  {
    var collected := DistinctScores(es);
    thresholds := new real[|collected|](i requires 0 <= i < |collected| => collected[i]);
    assert thresholds[..] == collected;
    SortDescending(thresholds);
    SortedSetIsThresholds(es, set e | e in es :: e.entry.score, thresholds[..]);
  }

  method DistinctScores(es: seq<Labelled>) returns (collected: seq<real>)
    ensures multiset(collected) == multiset(set e | e in es :: e.entry.score)
  {
    var pending := set e | e in es :: e.entry.score;
    ghost var scores := pending;
    collected := [];
    while pending != {}
      invariant multiset(collected) == multiset(scores - pending) && pending <= scores
      decreases |pending|
    {
      var t :| t in pending;
      assert scores - (pending - {t}) == (scores - pending) + {t};
      collected, pending := collected + [t], pending - {t};
    }
    assert scores - pending == scores;
  }

  lemma SortedSetIsThresholds(es: seq<Labelled>, scores: set<real>, ts: seq<real>)
    requires scores == set e | e in es :: e.entry.score
    requires multiset(ts) == multiset(scores)
    requires forall i, j :: 0 <= i < j < |ts| ==> ts[i] >= ts[j]
    ensures Thresholds(es, ts)
  {
    forall i, j | 0 <= i < j < |ts| ensures ts[i] > ts[j] {
      assert multiset(scores)[ts[i]] <= 1;
      if ts[i] == ts[j] {
        CountedTwice(ts, i, j);
      }
    }
    forall e | e in es ensures e.entry.score in ts {
      assert e.entry.score in multiset(ts);
    }
    forall t | t in ts ensures exists e :: e in es && e.entry.score == t {
      assert t in multiset(ts);
    }
  }

  /** The k-th point of the curve: the rates after the first k thresholds. */
  function PointAt(es: seq<Labelled>, ts: seq<real>, k: nat): Point
    requires k <= |ts|
  {
    RatePoint(Reached(es, ts, true, k), Reached(es, ts, false, k), Total(es, true), Total(es, false))
  }

  /** The trapezoid between two points, in rates and in counts. */
  lemma {:induction false} Trapezoid(tp: int, tp': int, fp: int, fp': int, p: nat, n: nat)
    requires p > 0 && n > 0
    ensures (fp' as real / n as real - fp as real / n as real)
            * (tp' as real / p as real + tp as real / p as real) / 2.0
            == ((fp' - fp) * (tp' + tp)) as real / (2 * p * n) as real
  {
    var x, y, pr, nr := (fp' - fp) as real, (tp' + tp) as real, p as real, n as real;
    assert fp' as real / nr - fp as real / nr == x / nr;
    assert tp' as real / pr + tp as real / pr == y / pr;
    assert ((fp' - fp) * (tp' + tp)) as real == x * y;
    assert (2 * p * n) as real == 2.0 * pr * nr;
    Fractions(x, nr, y, pr);
  }

  lemma Fractions(x: real, n: real, y: real, p: real)
    requires n > 0.0 && p > 0.0
    ensures x / n * (y / p) / 2.0 == x * y / (2.0 * p * n)
  {
    var a, b := x / n, y / p;
    assert x == a * n && y == b * p;
    assert x * y == a * b * (p * n);
    assert x * y / (2.0 * p * n) == a * b / 2.0 by {
      assert a * b / 2.0 * (2.0 * p * n) == x * y;
    }
  }

  /** A doubled count area as a rate: nothing while either truth is missing. */
  ghost function Scaled(area: int, p: nat, n: nat): real {
    if p == 0 || n == 0 then 0.0 else area as real / (2 * p * n) as real
  }

  lemma {:induction false} ScaledAdds(a: int, b: int, p: nat, n: nat)
    ensures Scaled(a + b, p, n) == Scaled(a, p, n) + Scaled(b, p, n)
  {
    if p > 0 && n > 0 {
      assert 2 * p * n > 0;
      AddFractions(a as real, b as real, (2 * p * n) as real);
    }
  }

  lemma AddFractions(a: real, b: real, d: real)
    requires d > 0.0
    ensures (a + b) / d == a / d + b / d
  {
  }

  function TrapezoidArea(a: Point, b: Point): real {
    var dx := b.fpr - a.fpr;
    var dy := b.tpr + a.tpr;
    dx * dy / 2.0
  }

  function RatePoint(tp: int, fp: int, p: nat, n: nat): Point {
    Point(SafeDiv(tp as real, p as real), SafeDiv(fp as real, n as real))
  }

  /** A trapezoid between two points that are rates of counts. */
  lemma {:induction false} TrapezoidRate(tp: int, tp': int, fp: int, fp': int, p: nat, n: nat)
    requires p == 0 ==> tp == tp' == 0
    requires n == 0 ==> fp == fp' == 0
    ensures TrapezoidArea(RatePoint(tp, fp, p, n), RatePoint(tp', fp', p, n)) == Scaled(Strip(fp' - fp, tp' + tp), p, n)
  {
    if p > 0 && n > 0 {
      Trapezoid(tp, tp', fp, fp', p, n);
    }
  }

  ghost function Rate(es: seq<Labelled>, ts: seq<real>, k: nat): real
    requires k <= |ts|
  {
    Scaled(Area(es, ts, k), Total(es, true), Total(es, false))
  }

  lemma {:induction false} CountWithinTotal(es: seq<Labelled>, actual: bool, t: real)
    ensures Count(es, actual, t, false) <= Total(es, actual)
  {
    if es != [] {
      CountWithinTotal(es[..|es| - 1], actual, t);
    }
  }

  lemma {:induction false} ReachedWithinTotal(es: seq<Labelled>, ts: seq<real>, actual: bool, k: nat)
    requires k <= |ts|
    ensures Reached(es, ts, actual, k) <= Total(es, actual)
  {
    if k > 0 {
      CountWithinTotal(es, actual, ts[k - 1]);
    }
  }

  /** The area under the first `k` segments of a polyline. */
  function CurveArea(points: seq<Point>, k: nat): real
    requires k < |points|
  {
    if k == 0 then 0.0 else CurveArea(points, k - 1) + TrapezoidArea(points[k - 1], points[k])
  }

  /** Doubled count area of the k-th segment. */
  function SegmentArea(es: seq<Labelled>, ts: seq<real>, k: nat): int
    requires 0 < k <= |ts|
  {
    Strip(Reached(es, ts, false, k) - Reached(es, ts, false, k - 1),
          Reached(es, ts, true, k) + Reached(es, ts, true, k - 1))
  }

  lemma {:induction false} SegmentRate(es: seq<Labelled>, ts: seq<real>, k: nat)
    requires 0 < k <= |ts|
    ensures TrapezoidArea(PointAt(es, ts, k - 1), PointAt(es, ts, k))
            == Scaled(SegmentArea(es, ts, k), Total(es, true), Total(es, false))
  {
    ReachedWithinTotal(es, ts, true, k - 1);
    ReachedWithinTotal(es, ts, true, k);
    ReachedWithinTotal(es, ts, false, k - 1);
    ReachedWithinTotal(es, ts, false, k);
    TrapezoidRate(Reached(es, ts, true, k - 1), Reached(es, ts, true, k),
                  Reached(es, ts, false, k - 1), Reached(es, ts, false, k), Total(es, true), Total(es, false));
  }

  lemma {:induction false} OneMoreSegment(es: seq<Labelled>, ts: seq<real>, k: nat)
    requires 0 < k <= |ts|
    ensures TrapezoidArea(PointAt(es, ts, k - 1), PointAt(es, ts, k)) == Rate(es, ts, k) - Rate(es, ts, k - 1)
  {
    SegmentRate(es, ts, k);
    ScaledAdds(Area(es, ts, k - 1), SegmentArea(es, ts, k), Total(es, true), Total(es, false));
  }

  lemma {:induction false} CurveTelescopes(points: seq<Point>, k: nat, rate: nat -> real)
    requires k < |points| && rate(0) == 0.0
    requires forall i: nat :: 0 < i <= k ==> TrapezoidArea(points[i - 1], points[i]) == rate(i) - rate(i - 1)
    ensures CurveArea(points, k) == rate(k)
  {
    if k > 0 {
      CurveTelescopes(points, k - 1, rate);
    }
  }

  lemma {:induction false} CurveIsRate(es: seq<Labelled>, ts: seq<real>, points: seq<Point>)
    requires |ts| < |points| && forall m :: 0 <= m <= |ts| ==> points[m] == PointAt(es, ts, m)
    ensures CurveArea(points, |ts|) == Rate(es, ts, |ts|)
  {
    var rate := (i: nat) => if i <= |ts| then Rate(es, ts, i) else 0.0;
    forall i: nat | 0 < i <= |ts| ensures TrapezoidArea(points[i - 1], points[i]) == rate(i) - rate(i - 1) {
      assert points[i - 1] == PointAt(es, ts, i - 1) && points[i] == PointAt(es, ts, i);
      OneMoreSegment(es, ts, i);
    }
    CurveTelescopes(points, |ts|, rate);
  }

  /** The whole curve: from the last point the thresholds reach there is one more segment to (1, 1). */
  lemma {:induction false} WholeCurve(es: seq<Labelled>, ts: seq<real>, points: seq<Point>)
    requires Thresholds(es, ts) && es != []
    requires |points| == |ts| + 2 && points[|ts| + 1] == Point(1.0, 1.0)
    requires forall m :: 0 <= m <= |ts| ==> points[m] == PointAt(es, ts, m)
    ensures CurveArea(points, |ts| + 1) == PairRate(es)
  {
    CurveIsRate(es, ts, points);
    LastPoint(es, ts);
    TotalsSum(es);
  }

  /** The pair statistic, extended to the two cases where a truth is missing. */
  ghost function PairRate(es: seq<Labelled>): real {
    if Total(es, false) == 0 then 1.0 else Scaled(DoubledPairs(es, es), Total(es, true), Total(es, false))
  }

  lemma SafeDivSelf(a: nat)
    ensures SafeDiv(a as real, a as real) == if a == 0 then 0.0 else 1.0
  {
    if a > 0 {
      var x := a as real;
      assert x / x == 1.0;
    }
  }

  /** The last point the thresholds reach is (1, 1), except that a missing truth leaves its rate at 0. */
  lemma {:induction false} LastPoint(es: seq<Labelled>, ts: seq<real>)
    requires Thresholds(es, ts) && es != []
    ensures var last := PointAt(es, ts, |ts|);
            && last.tpr == (if Total(es, true) == 0 then 0.0 else 1.0)
            && last.fpr == (if Total(es, false) == 0 then 0.0 else 1.0)
    ensures Rate(es, ts, |ts|) == Scaled(DoubledPairs(es, es), Total(es, true), Total(es, false))
  {
    WholeArea(es, ts);
    SafeDivSelf(Total(es, true));
    SafeDivSelf(Total(es, false));
  }

  lemma {:induction false} TotalsSum(es: seq<Labelled>)
    ensures Total(es, true) + Total(es, false) == |es|
  {
    if es != [] {
      TotalsSum(es[..|es| - 1]);
    }
  }

  /** The area is the pair statistic when both truths occur, so the final clamp never acts; it is 0
      without positives and 1 without negatives. */
  method ComputeAUROC(es: seq<Labelled>) returns (auroc: real)
    ensures Total(es, true) > 0 && Total(es, false) > 0 ==> auroc == MannWhitney(es)
    ensures Total(es, true) == 0 ==> auroc == 0.0
    ensures Total(es, true) > 0 && Total(es, false) == 0 ==> auroc == 1.0
  {
    if es == [] {
      return 0.0;
    }
    auroc := Sweep(es);
    TotalsSum(es);
    if Total(es, true) > 0 && Total(es, false) > 0 {
      MannWhitneyBounds(es);
    }
    if auroc < 0.0 {
      auroc := 0.0;
    }
    if auroc > 1.0 {
      auroc := 1.0;
    }
  }

  method Sweep(es: seq<Labelled>) returns (auroc: real)
    requires es != []
    ensures auroc == PairRate(es)
  {
    var thresholds := CollectThresholds(es);
    var totalP, totalN := CountTotals(es);
    ghost var ts := thresholds[..];
    var points := [Point(0.0, 0.0)];
    for k := 0 to thresholds.Length
      invariant thresholds[..] == ts
      invariant |points| == k + 1 && forall m :: 0 <= m <= k ==> points[m] == PointAt(es, ts, m)
    {
      var tp, fp := CountAt(es, thresholds[k]);
      points := points + [Point(SafeDiv(tp as real, totalP as real), SafeDiv(fp as real, totalN as real))];
    }
    points := points + [Point(1.0, 1.0)];
    WholeCurve(es, ts, points);
    auroc := Integrate(points);
  }

  method CountTotals(es: seq<Labelled>) returns (totalP: nat, totalN: nat)
    ensures totalP == Total(es, true) && totalN == Total(es, false)
  {
    totalP, totalN := 0, 0;
    for i := 0 to |es|
      invariant totalP == Total(es[..i], true) && totalN == Total(es[..i], false)
    {
      assert es[..i + 1][..i] == es[..i];
      if es[i].actual { totalP := totalP + 1; } else { totalN := totalN + 1; }
    }
    assert es[..|es|] == es;
  }

  method CountAt(es: seq<Labelled>, thresh: real) returns (tp: nat, fp: nat)
    ensures tp == Count(es, true, thresh, false) && fp == Count(es, false, thresh, false)
  {
    tp, fp := 0, 0;
    for i := 0 to |es|
      invariant tp == Count(es[..i], true, thresh, false) && fp == Count(es[..i], false, thresh, false)
    {
      assert es[..i + 1][..i] == es[..i];
      var predicted := es[i].entry.score >= thresh;
      if predicted && es[i].actual { tp := tp + 1; }
      if predicted && !es[i].actual { fp := fp + 1; }
    }
    assert es[..|es|] == es;
  }

  method Integrate(points: seq<Point>) returns (auroc: real)
    requires points != []
    ensures auroc == CurveArea(points, |points| - 1)
  {
    auroc := 0.0;
    for i := 1 to |points|
      invariant auroc == CurveArea(points, i - 1)
    {
      var dx := points[i].fpr - points[i - 1].fpr;
      var dy := points[i].tpr + points[i - 1].tpr;
      auroc := auroc + dx * dy / 2.0;
    }
  }
}
