/** Calibration: confusion metrics, incremental and batch, and the zero-false-positive threshold.
    Scores and rates are exact reals. */
module Calibration {
  import opened Common
  import opened Roc

  datatype Metrics = Metrics(
    truePositives: nat, trueNegatives: nat, falsePositives: nat, falseNegatives: nat,
    precision: real, recall: real, f1: real, auroc: real,
    total: nat, threshold: real, modelVersion: string)

  const ZERO := Metrics(0, 0, 0, 0, 0.0, 0.0, 0.0, 0.0, 0, 0.0, "")

  function SafeF1(precision: real, recall: real): real {
    if precision + recall == 0.0 then 0.0 else 2.0 * precision * recall / (precision + recall)
  }

  /** How many entries were predicted and labelled so. */
  function Cell(entries: seq<Labelled>, predicted: bool, actual: bool): nat {
    if entries == [] then 0
    else
      var n := |entries| - 1;
      Cell(entries[..n], predicted, actual)
      + if entries[n].entry.isThreat == predicted && entries[n].actual == actual then 1 else 0
  }

  lemma {:induction false} CellsSum(entries: seq<Labelled>)
    ensures Cell(entries, true, true) + Cell(entries, false, false)
            + Cell(entries, true, false) + Cell(entries, false, true) == |entries|
  {
    if entries != [] {
      CellsSum(entries[..|entries| - 1]);
    }
  }

  ghost function CellAt(entries: seq<Labelled>, predicted: bool, actual: bool): int -> bool {
    i => 0 <= i < |entries| && entries[i].entry.isThreat == predicted && entries[i].actual == actual
  }

  /** A cell is the number of entries with its prediction and its label. */
  lemma {:induction false} CellIsPlaces(entries: seq<Labelled>, predicted: bool, actual: bool, n: nat)
    requires n <= |entries|
    ensures Cell(entries[..n], predicted, actual) == |Places(n, CellAt(entries, predicted, actual))|
  {
    if n > 0 {
      CellIsPlaces(entries, predicted, actual, n - 1);
      PlacesGrow(n, CellAt(entries, predicted, actual));
      assert entries[..n][..n - 1] == entries[..n - 1];
    }
  }

  lemma RateTimes(part: nat, whole: nat)
    requires part <= whole
    ensures SafeDiv(part as real, whole as real) * whole as real == part as real
  {
  }

  /** The rates of a confusion matrix: precision among the flagged, recall among the threats, and F1, the harmonic
      mean of both, which counts the hits twice. */
  lemma {:induction false} RatesMean(tp: nat, fp: nat, fn: nat)
    ensures var precision, recall := SafeDiv(tp as real, (tp + fp) as real), SafeDiv(tp as real, (tp + fn) as real);
            && precision * (tp + fp) as real == tp as real && recall * (tp + fn) as real == tp as real
            && SafeF1(precision, recall) * (2 * tp + fp + fn) as real == (2 * tp) as real
  {
    RateTimes(tp, tp + fp);
    RateTimes(tp, tp + fn);
    if tp == 0 {
      RateBounds(tp, fp);
      RateBounds(tp, fn);
    } else {
      HarmonicMean(tp as real, (tp + fp) as real, (tp + fn) as real);
      assert (2 * tp + fp + fn) as real == (tp + fp) as real + (tp + fn) as real;
    }
  }

  lemma HarmonicMean(t: real, a: real, b: real)
    requires t > 0.0 && a > 0.0 && b > 0.0
    ensures SafeF1(t / a, t / b) * (a + b) == 2.0 * t
  {
    var p, r := t / a, t / b;
    assert p * a == t && r * b == t;
    QuotientPositive(t, a);
    QuotientPositive(t, b);
    var f, s := SafeF1(p, r), p + r;
    assert f * s == 2.0 * p * r;
    assert p * r * (a + b) == t * s by {
      assert p * r * a == t * r && p * r * b == t * p;
    }
    assert (f * (a + b) - 2.0 * t) * s == 0.0 by {
      assert f * (a + b) * s == f * s * (a + b);
      assert f * s * (a + b) == 2.0 * (p * r * (a + b));
    }
    NoFactor(f * (a + b) - 2.0 * t, s);
  }

  lemma QuotientPositive(t: real, a: real)
    requires t > 0.0 && a > 0.0
    ensures t / a > 0.0
  {
  }

  lemma NoFactor(x: real, s: real)
    requires s > 0.0 && x * s == 0.0
    ensures x == 0.0
  {
  }

  /** A rate of non-negative counts is between 0 and 1, and 0 only when the counted part is empty. */
  lemma {:induction false} RateBounds(part: nat, rest: nat)
    ensures 0.0 <= SafeDiv(part as real, (part + rest) as real) <= 1.0
    ensures SafeDiv(part as real, (part + rest) as real) == 0.0 <==> part == 0
  {
    if part + rest > 0 {
      var p, t := part as real, (part + rest) as real;
      assert p / t * t == p;
    }
  }

  /** F1 lies between precision and recall. */
  lemma {:induction false} F1Between(precision: real, recall: real)
    requires precision >= 0.0 && recall >= 0.0
    ensures Between(precision, SafeF1(precision, recall), recall)
  {
    var s := precision + recall;
    if s > 0.0 {
      var (lo, hi) := if precision <= recall then (precision, recall) else (recall, precision);
      var f, gap := SafeF1(precision, recall), hi - lo;
      assert f * s == 2.0 * lo * hi;
      Product(lo, gap);
      Product(hi, gap);
      assert (f - lo) * s == lo * gap && (hi - f) * s == hi * gap;
      SignOfFactor(f - lo, s);
      SignOfFactor(hi - f, s);
    }
  }

  predicate Between(a: real, x: real, b: real) {
    (a <= x <= b) || (b <= x <= a)
  }

  lemma Product(a: real, b: real)
    requires a >= 0.0 && b >= 0.0
    ensures a * b >= 0.0
  {
  }

  lemma SignOfFactor(a: real, s: real)
    requires a * s >= 0.0 && s > 0.0
    ensures a >= 0.0
  {
  }

  datatype Config = Config(threshold: real, modelPath: string)

  /** The result of a calibration; the rate is None where the program divides 0 by 0. */
  datatype CalibrationResult = CalibrationResult(
    threshold: real, maxBenign: real, margin: real, samples: nat, falsePositives: nat, fpr: Option<real>)

  class Manager {
    var config: Config
    var running: Metrics

    constructor (config: Config)
      ensures this.config == config && running == ZERO
    {
      this.config := config;
      running := ZERO;
    }

    predicate IsAboveThreshold(score: real)
      reads this
    {
      score >= config.threshold
    }

    /** No benign input is above the new threshold, which is the least allowed by the margin and the floor. */
    method CalibrateFromBenign(inputs: seq<string>, score: string -> real) returns (r: CalibrationResult)
      modifies this`config
      ensures config == old(config).(threshold := r.threshold)
      ensures forall x :: x in inputs ==> !IsAboveThreshold(score(x)) && score(x) + r.margin <= r.threshold
      ensures r.threshold == 0.5 || (r.threshold > 0.5 && exists x :: x in inputs && score(x) + r.margin == r.threshold)
      ensures forall x :: x in inputs ==> score(x) <= r.maxBenign
      ensures r.maxBenign == 0.0 || (r.maxBenign > 0.0 && exists x :: x in inputs && score(x) == r.maxBenign)
      ensures r.margin == 0.05 && r.samples == |inputs|
      ensures r.falsePositives == |Places(|inputs|, ReachesAt(inputs, score, old(config.threshold)))|
      ensures r.fpr == if inputs == [] then None else Some(r.falsePositives as real / |inputs| as real)
    {
      var maxScore, falsePositives := 0.0, 0;
      for i := 0 to |inputs|
        invariant config == old(config) && maxScore >= 0.0
        invariant forall j :: 0 <= j < i ==> score(inputs[j]) <= maxScore
        invariant maxScore == 0.0 || exists x :: x in inputs && score(x) == maxScore
        invariant falsePositives == |Places(i, ReachesAt(inputs, score, config.threshold))|
      {
        PlacesGrow(i + 1, ReachesAt(inputs, score, config.threshold));
        var s := score(inputs[i]);
        if s > maxScore {
          maxScore := s;
        }
        if s >= config.threshold {
          falsePositives := falsePositives + 1;
        }
      }
      var margin := 0.05;
      var threshold := maxScore + margin;
      if threshold < 0.5 {
        threshold := 0.5;
      }
      var fpr := if inputs == [] then None else Some(falsePositives as real / |inputs| as real);
      config := config.(threshold := threshold);
      return CalibrationResult(threshold, maxScore, margin, |inputs|, falsePositives, fpr);
    }

    method ResetRunningMetrics()
      modifies this`running
      ensures running == Reset(config)
    {
      running := ZERO.(threshold := config.threshold, modelVersion := config.modelPath);
    }

    method UpdateRunningMetrics(entry: Entry, actual: bool)
      modifies this`running
      ensures running == Updated(config, old(running), Labelled(entry, actual))
    {
      var tp, tn := running.truePositives, running.trueNegatives;
      var fp, fn := running.falsePositives, running.falseNegatives;
      if {
        case entry.isThreat && actual => tp := tp + 1;
        case !entry.isThreat && !actual => tn := tn + 1;
        case entry.isThreat && !actual => fp := fp + 1;
        case !entry.isThreat && actual => fn := fn + 1;
      }
      var precision, recall := SafeDiv(tp as real, (tp + fp) as real), SafeDiv(tp as real, (tp + fn) as real);
      running := Metrics(tp, tn, fp, fn, precision, recall, SafeF1(precision, recall), running.auroc,
                         running.total + 1, config.threshold, entry.modelVersion);
    }
  }

  /** Where an input reaches a threshold. */
  ghost function ReachesAt(inputs: seq<string>, score: string -> real, threshold: real): int -> bool {
    i => 0 <= i < |inputs| && score(inputs[i]) >= threshold
  }

  // ----- the running tracker and the batch computation

  function Reset(config: Config): Metrics {
    ZERO.(threshold := config.threshold, modelVersion := config.modelPath)
  }

  function Updated(config: Config, m: Metrics, e: Labelled): Metrics {
    var p, a := e.entry.isThreat, e.actual;
    var tp := m.truePositives + if p && a then 1 else 0;
    var fp := m.falsePositives + if p && !a then 1 else 0;
    var fn := m.falseNegatives + if !p && a then 1 else 0;
    var precision, recall := SafeDiv(tp as real, (tp + fp) as real), SafeDiv(tp as real, (tp + fn) as real);
    Metrics(tp, m.trueNegatives + if !p && !a then 1 else 0, fp, fn, precision, recall, SafeF1(precision, recall),
            m.auroc, m.total + 1, config.threshold, e.entry.modelVersion)
  }

  function Tracked(config: Config, entries: seq<Labelled>): Metrics {
    if entries == [] then Reset(config)
    else Updated(config, Tracked(config, entries[..|entries| - 1]), entries[|entries| - 1])
  }

  /** The batch computation from the four cells and the curve. */
  method ComputeMetrics(entries: seq<Labelled>) returns (m: Metrics)
    ensures entries == [] ==> m == ZERO
    ensures entries != [] ==>
              && m.truePositives == Cell(entries, true, true) && m.trueNegatives == Cell(entries, false, false)
              && m.falsePositives == Cell(entries, true, false) && m.falseNegatives == Cell(entries, false, true)
              && m.total == |entries|
              && m.precision == Precision(entries) && m.recall == Recall(entries)
              && m.f1 == SafeF1(Precision(entries), Recall(entries))
              && (Total(entries, true) > 0 && Total(entries, false) > 0 ==> m.auroc == MannWhitney(entries))
              && (Total(entries, true) == 0 ==> m.auroc == 0.0)
              && (Total(entries, true) > 0 && Total(entries, false) == 0 ==> m.auroc == 1.0)
              && m.threshold == entries[0].entry.threshold && m.modelVersion == entries[0].entry.modelVersion
  {
    if entries == [] {
      return ZERO;
    }
    var tp, tn, fp, fn := 0, 0, 0, 0;
    for i := 0 to |entries|
      invariant tp == Cell(entries[..i], true, true) && tn == Cell(entries[..i], false, false)
      invariant fp == Cell(entries[..i], true, false) && fn == Cell(entries[..i], false, true)
    {
      assert entries[..i + 1][..i] == entries[..i];
      var predicted, actual := entries[i].entry.isThreat, entries[i].actual;
      if {
        case predicted && actual => tp := tp + 1;
        case !predicted && !actual => tn := tn + 1;
        case predicted && !actual => fp := fp + 1;
        case !predicted && actual => fn := fn + 1;
      }
    }
    assert entries[..|entries|] == entries;
    var precision, recall := SafeDiv(tp as real, (tp + fp) as real), SafeDiv(tp as real, (tp + fn) as real);
    var auroc := ComputeAUROC(entries);
    m := Metrics(tp, tn, fp, fn, precision, recall, SafeF1(precision, recall), auroc, |entries|,
                 entries[0].entry.threshold, entries[0].entry.modelVersion);
  }

  function Precision(entries: seq<Labelled>): real {
    SafeDiv(Cell(entries, true, true) as real, (Cell(entries, true, true) + Cell(entries, true, false)) as real)
  }

  function Recall(entries: seq<Labelled>): real {
    SafeDiv(Cell(entries, true, true) as real, (Cell(entries, true, true) + Cell(entries, false, true)) as real)
  }

  lemma {:induction false} TrackerCounts(config: Config, entries: seq<Labelled>)
    ensures var m := Tracked(config, entries);
            && m.truePositives == Cell(entries, true, true) && m.trueNegatives == Cell(entries, false, false)
            && m.falsePositives == Cell(entries, true, false) && m.falseNegatives == Cell(entries, false, true)
            && m.total == |entries| && m.auroc == 0.0 && m.threshold == config.threshold
  {
    if entries != [] {
      TrackerCounts(config, entries[..|entries| - 1]);
    }
  }

  /** From reset, the tracker agrees with the batch computation on every sequence: the four counts,
      precision, recall and F1. The counts add up to the total, and F1 is between the two rates. */
  lemma {:induction false} TrackerIsBatch(config: Config, entries: seq<Labelled>)
    ensures var m := Tracked(config, entries);
            && m.truePositives == Cell(entries, true, true) && m.trueNegatives == Cell(entries, false, false)
            && m.falsePositives == Cell(entries, true, false) && m.falseNegatives == Cell(entries, false, true)
            && m.precision == Precision(entries) && m.recall == Recall(entries)
            && m.f1 == SafeF1(m.precision, m.recall) && Between(m.precision, m.f1, m.recall)
            && m.total == |entries| == m.truePositives + m.trueNegatives + m.falsePositives + m.falseNegatives
            && m.auroc == 0.0 && m.threshold == config.threshold
            && m.modelVersion == if entries == [] then config.modelPath else entries[|entries| - 1].entry.modelVersion
  {
    TrackerCounts(config, entries);
    CellsSum(entries);
    if entries != [] {
      TrackerCounts(config, entries[..|entries| - 1]);
    }
    RateBounds(Cell(entries, true, true), Cell(entries, true, false));
    RateBounds(Cell(entries, true, true), Cell(entries, false, true));
    F1Between(Precision(entries), Recall(entries));
  }
}
