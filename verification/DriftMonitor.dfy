/** The drift monitor: a baseline, a current distribution and a history, updated in place. */
module DriftMonitor {
  import opened Common
  import opened Binning
  import opened DriftMeasures

  datatype DriftResult = DriftResult(
    feature: string, psi: real, kl: real, level: Level, baselineN: nat, currentN: nat)

  datatype Thresholds = Thresholds(minor: real, significant: real, major: real)

  /** The defaults, or the configured map; a threshold the map does not name is 0. */
  function ThresholdsOf(config: Option<map<string, real>>): Thresholds {
    match config
    case None => Thresholds(0.1, 0.25, 0.5)
    case Some(m) => Thresholds(ThresholdIn(m, "minor"), ThresholdIn(m, "significant"), ThresholdIn(m, "major"))
  }

  function ThresholdIn(m: map<string, real>, key: string): real {
    if key in m then m[key] else 0.0
  }

  const HISTORY := 1000

  /** What a check reports, given a feature's baseline and current distribution. */
  function Report(feature: string, b: Dist, c: Dist, n: nat, t: Thresholds, ln: Ln): DriftResult {
    if c.count == 0 then DriftResult(feature, 0.0, 0.0, NoDrift, b.count, 0)
    else
      var psi := Psi(b, c, n, ln);
      DriftResult(feature, psi, Kl(b, c, n, ln), Classify(psi, t.minor, t.significant, t.major), b.count, c.count)
  }

  class Distribution {
    const feature: string
    var bins: seq<Bin>
    var count: nat

    constructor (feature: string, n: nat)
      ensures this.feature == feature && Value() == Empty(feature, n)
    {
      this.feature := feature;
      bins := seq(n, _ => Bin(0.0, 0.0, 0));
      count := 0;
    }

    function Value(): Dist
      reads this
    {
      Dist(feature, bins, count)
    }

    method Record(baseline: Option<Dist>, v: real)
      modifies this
      ensures Value() == Observed(baseline, old(Value()), v)
    {
      var i := FindBin(baseline, |bins|, v);
      if 0 <= i < |bins| {
        bins := bins[i := bins[i].(count := bins[i].count + 1)];
        count := count + 1;
      }
    }
  }

  class Monitor {
    const n: nat
    const thresholds: Thresholds
    var baseline: map<string, Dist>
    var current: map<string, Distribution>
    var history: seq<DriftResult>

    /** Bin counts always add up to the count, and each feature has its own distribution object. */
    ghost predicate Valid()
      reads this, current.Values
    {
      && n > 0
      && |history| <= HISTORY
      && (forall f :: f in baseline ==> |baseline[f].bins| == n && Conserved(baseline[f]))
      && (forall f :: f in current ==>
                        current[f].feature == f && |current[f].bins| == n && Conserved(current[f].Value()))
    }

    constructor (binCount: int, psiThresholds: Option<map<string, real>>)
      ensures Valid() && baseline == map[] && current == map[] && history == []
      ensures thresholds == ThresholdsOf(psiThresholds) && n == if binCount <= 0 then 10 else binCount
    {
      n := if binCount <= 0 then 10 else binCount;
      thresholds := ThresholdsOf(psiThresholds);
      baseline, current, history := map[], map[], [];
    }

    function BaselineOf(feature: string): Option<Dist>
      reads this`baseline
    {
      if feature in baseline then Some(baseline[feature]) else None
    }

    function CurrentOf(feature: string): Dist
      reads this`current, current.Values
    {
      if feature in current then current[feature].Value() else Empty(feature, n)
    }

    method SetBaseline(feature: string, values: seq<real>)
      requires Valid()
      modifies this`baseline
      ensures Valid() && baseline == old(baseline)[feature := Build(feature, values, n)]
    {
      var dist, _ := BuildDistribution(feature, values, n);
      BuildConserves(feature, values, n);
      baseline := baseline[feature := dist];
    }

    /** The feature's current distribution, created empty when there is none yet. */
    method DistributionFor(feature: string) returns (dist: Distribution)
      requires Valid()
      modifies this`current
      ensures Valid() && current.Keys == old(current.Keys) + {feature} && current[feature] == dist
      ensures current.Values <= old(current.Values) + {dist} && (fresh(dist) || current == old(current))
      ensures dist.Value() == old(CurrentOf(feature))
      ensures forall f :: f in old(current) ==> f in current && current[f] == old(current[f])
    {
      if feature in current {
        return current[feature];
      }
      dist := new Distribution(feature, n);
      EmptyConserves(dist.bins);
      current := current[feature := dist];
    }

    method Observe(feature: string, v: real)
      requires Valid()
      modifies this`current, current.Values
      ensures Valid() && current.Keys == old(current.Keys) + {feature}
      ensures fresh(current.Values - old(current.Values))
      ensures CurrentOf(feature) == Observed(BaselineOf(feature), old(CurrentOf(feature)), v)
      ensures forall f :: f in old(current) && f != feature ==> CurrentOf(f) == old(CurrentOf(f))
    {
      var dist := DistributionFor(feature);
      ObservedConserves(BaselineOf(feature), dist.Value(), v);
      dist.Record(BaselineOf(feature), v);
    }

    method ObserveBatch(feature: string, values: seq<real>)
      requires Valid()
      modifies this`current, current.Values
      ensures Valid() && current.Keys == old(current.Keys) + if values == [] then {} else {feature}
      ensures fresh(current.Values - old(current.Values))
      ensures CurrentOf(feature) == ObservedAll(BaselineOf(feature), old(CurrentOf(feature)), values)
      ensures forall f :: f in old(current) && f != feature ==> CurrentOf(f) == old(CurrentOf(f))
    {
      ghost var b, start, keys := BaselineOf(feature), CurrentOf(feature), current.Keys;
      for i := 0 to |values|
        invariant Valid() && BaselineOf(feature) == b
        invariant current.Keys == if i == 0 then keys else keys + {feature}
        invariant fresh(current.Values - old(current.Values))
        invariant CurrentOf(feature) == ObservedAll(b, start, values[..i])
        invariant forall f :: f in keys && f != feature ==> CurrentOf(f) == old(CurrentOf(f))
      {
        assert values[..i + 1][..i] == values[..i];
        Observe(feature, values[i]);
      }
      assert values[..|values|] == values;
    }

    method ResetCurrent()
      requires Valid()
      modifies this`current
      ensures Valid() && current == map[]
    {
      current := map[];
    }

    /** What a check reports for a feature that has a baseline. */
    function ResultFor(feature: string, ln: Ln): DriftResult
      requires feature in baseline
      reads this`baseline, this`current, current.Values
    {
      Report(feature, baseline[feature], CurrentOf(feature), n, thresholds, ln)
    }

    method CheckFeature(feature: string, ln: Ln) returns (result: DriftResult)
      requires Valid() && feature in baseline
      modifies this`history
      ensures Valid() && result == ResultFor(feature, ln)
      ensures history == Logged(old(history), [result])
    {
      var b := baseline[feature];
      if feature !in current || current[feature].count == 0 {
        result := DriftResult(feature, 0.0, 0.0, NoDrift, b.count, 0);
        assert [result][..0] == [];
        return;
      }
      var c := current[feature].Value();
      var psi := CalculatePSI(b, c, n, ln);
      var kl := CalculateKL(b, c, n, ln);
      var level := Classify(psi, thresholds.minor, thresholds.significant, thresholds.major);
      result := DriftResult(feature, psi, kl, level, b.count, c.count);
      assert [result][..0] == [];
      history := history + [result];
      if |history| > HISTORY {
        history := history[|history| - HISTORY..];
      }
    }

    /** Exactly one result per feature with a baseline, in any order; those with observations go into the history. */
    method CheckDrift(ln: Ln) returns (results: seq<DriftResult>)
      requires Valid()
      modifies this`history
      ensures Valid() && history == Logged(old(history), results)
      ensures |results| == |baseline| && forall f :: f in baseline ==> ResultFor(f, ln) in results
    {
      results := [];
      var pending := baseline.Keys;
      ghost var before := history;
      while pending != {}
        invariant Valid() && history == Logged(before, results)
        invariant pending <= baseline.Keys && |results| + |pending| == |baseline|
        invariant forall f :: f in baseline && f !in pending ==> ResultFor(f, ln) in results
        decreases |pending|
      {
        var feature :| feature in pending;
        pending := pending - {feature};
        var result := CheckFeature(feature, ln);
        LoggedOneMore(before, results, result);
        results := results + [result];
      }
    }
  }

  /** The history after some results: those with observations are added, and the last 1000 are kept. */
  function Logged(history: seq<DriftResult>, results: seq<DriftResult>): seq<DriftResult> {
    if results == [] then history
    else
      var k := |results| - 1;
      var before := Logged(history, results[..k]);
      if results[k].currentN == 0 then before else Latest(before + [results[k]])
  }

  function Latest(history: seq<DriftResult>): seq<DriftResult> {
    if |history| > HISTORY then history[|history| - HISTORY..] else history
  }

  lemma LoggedOneMore(history: seq<DriftResult>, results: seq<DriftResult>, r: DriftResult)
    ensures Logged(history, results + [r]) == Logged(Logged(history, results), [r])
  {
    assert (results + [r])[..|results|] == results;
    assert [r][..0] == [];
  }

  // ----- a replayed baseline shows no drift

  predicate AllPositive(t: Thresholds) {
    t.minor > 0.0 && t.significant > 0.0 && t.major > 0.0
  }

  /** After replaying the baseline sample, in any order, a check reports PSI 0 and KL 0; and level none exactly
      when all thresholds are positive, or the sample is a constant at or below -1/n and so was dropped. */
  lemma {:induction false} ReplayReport(
    feature: string, values: seq<real>, replay: seq<real>, n: nat, base: Dist, t: Thresholds, ln: Ln)
    requires n > 0 && values != [] && multiset(replay) == multiset(values) && base == Build(feature, values, n)
    requires Increasing(ln)
    ensures var r := Report(feature, base, ObservedAll(Some(base), Empty(feature, n), replay), n, t, ln);
            && r.psi == 0.0 && r.kl == 0.0
            && (r.level.NoDrift? <==> AllPositive(t) || MinOf(values) == MaxOf(values) <= -1.0 / n as real)
  {
    var current := ObservedAll(Some(base), Empty(feature, n), replay);
    ReplayReproduces(feature, values, replay, n, base);
    if SameCounts(current, base) {
      SameCountsNoDrift(base, current, n, ln, t.minor, t.significant, t.major);
    } else {
      ReplayDropped(feature, values, replay, n, base);
    }
  }

  /** The same of a monitor, in the state that SetBaseline, ResetCurrent and ObserveBatch leave. */
  lemma {:induction false} ReplayIsReported(
    m: Monitor, feature: string, values: seq<real>, replay: seq<real>, base: Dist, ln: Ln)
    requires m.Valid() && values != [] && multiset(replay) == multiset(values) && Increasing(ln)
    requires base == Build(feature, values, m.n) && m.BaselineOf(feature) == Some(base)
    requires m.CurrentOf(feature) == ObservedAll(Some(base), Empty(feature, m.n), replay)
    ensures var r := m.ResultFor(feature, ln);
            && r.psi == 0.0 && r.kl == 0.0
            && (r.level.NoDrift? <==>
                  AllPositive(m.thresholds) || MinOf(values) == MaxOf(values) <= -1.0 / m.n as real)
  {
    ReplayReport(feature, values, replay, m.n, base, m.thresholds, ln);
  }

  /** A configuration that names only the "major" threshold reports drift between equal distributions. */
  lemma {:induction false} UnnamedThresholdShowsDrift(b: Dist, n: nat, ln: Ln)
    requires b.count > 0 && |b.bins| == n && Increasing(ln)
    ensures Report(b.feature, b, b, n, ThresholdsOf(Some(map["major" := 0.5])), ln).level == Significant
  {
    SameCountsNoDrift(b, b, n, ln, 0.0, 0.0, 0.5);
    assert "minor" != "major" && "significant" != "major";
  }

  // ----- the history

  /** The results with observations, in order. */
  function Observations(results: seq<DriftResult>): seq<DriftResult> {
    if results == [] then []
    else
      var k := |results| - 1;
      if results[k].currentN == 0 then Observations(results[..k]) else Observations(results[..k]) + [results[k]]
  }

  /** The history is always the last 1000 of all results with observations. */
  lemma {:induction false} LoggedIsLatest(history: seq<DriftResult>, results: seq<DriftResult>)
    requires |history| <= HISTORY
    ensures Logged(history, results) == Latest(history + Observations(results))
  {
    if results == [] {
      assert history + [] == history;
    } else {
      var k := |results| - 1;
      LoggedIsLatest(history, results[..k]);
      var all := history + Observations(results[..k]);
      if results[k].currentN != 0 {
        LatestOn(all, results[k]);
        assert history + Observations(results) == all + [results[k]];
      }
    }
  }

  lemma LatestOn(all: seq<DriftResult>, r: DriftResult)
    ensures Latest(Latest(all) + [r]) == Latest(all + [r])
    ensures |Latest(all)| <= 1000 && Latest(all) == all[|all| - |Latest(all)|..]
    ensures |Latest(all)| < 1000 ==> Latest(all) == all
  {
  }
}
