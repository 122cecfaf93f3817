/** Correlating browser-extension signals with proxy detections: two bounded windows and four counters.
    Instants are integers; each operation takes the clock reading it makes. */
module LensCorrelation {
  import opened Common

  /** A severity text: one of the four the program compares with, or any other spelling. */
  datatype Severity = Low | Medium | High | Critical | Other(text: string)

  datatype Signal = Signal(domain: string, severity: Severity)

  datatype Detection = Detection(domain: string, severity: Severity, timestamp: int)

  datatype Correlation = Correlation(
    matching: seq<Detection>, escalated: bool, originalSeverity: Severity, escalatedSeverity: Severity,
    recommendBlock: bool, reason: Reason)

  datatype Reason = Unset | NoMatch | BothDetected | CriticalSeen | DualHigh

  datatype Stats = Stats(total: nat, correlated: nat, escalated: nat, blocked: nat)

  // ----- the decision for one pair

  function ShouldEscalate(lens: Severity, rampart: Severity): bool {
    if lens == Critical || rampart == Critical then true
    else
      var lensHigh := lens == High || lens == Critical;
      var rampartHigh := rampart == High || rampart == Critical;
      if lensHigh && rampartHigh then true
      else if lens == Medium && rampart == Medium then true
      else false
  }

  /** `lower` is Go's strings.ToLower, on severity texts. */
  function EscalateSeverity(lower: Severity -> Severity, severity: Severity): Severity {
    match lower(severity)
    case Low => Medium
    case Medium => High
    case High => Critical
    case _ => severity
  }

  function Height(severity: Severity): nat {
    match severity case Low => 1 case Medium => 2 case High => 3 case Critical => 4 case Other(_) => 0
  }

  /** Escalation goes up by exactly one level, except that nothing is above critical; other spellings stay. */
  lemma EscalatesByOne(lower: Severity -> Severity, severity: Severity)
    ensures 1 <= Height(lower(severity)) <= 3 ==>
              Height(EscalateSeverity(lower, severity)) == Height(lower(severity)) + 1
    ensures lower(severity) == Critical || lower(severity).Other? ==> EscalateSeverity(lower, severity) == severity
  {
  }

  predicate Blocks(lens: Severity, rampart: Severity) {
    lens == Critical || rampart == Critical || (lens == High && rampart == High)
  }

  // ----- the windows

  /** A retained detection counts for a signal when it is of the same domain and not before the window. */
  predicate Counts(d: Detection, s: Signal, windowStart: int) {
    d.timestamp >= windowStart && d.domain == s.domain
  }

  function Matching(ds: seq<Detection>, s: Signal, windowStart: int): seq<Detection> {
    if ds == [] then []
    else
      var k := |ds| - 1;
      var before := Matching(ds[..k], s, windowStart);
      if Counts(ds[k], s, windowStart) then before + [ds[k]] else before
  }

  function ReasonFor(s: Signal, ms: seq<Detection>): Reason {
    if ms == [] then Unset
    else
      var k := |ms| - 1;
      var r := ms[k].severity;
      if s.severity == Critical || r == Critical then CriticalSeen
      else if s.severity == High && r == High then DualHigh
      else if ShouldEscalate(s.severity, r) then BothDetected
      else ReasonFor(s, ms[..k])
  }

  predicate AnyEscalates(lens: Severity, ms: seq<Detection>) {
    exists d :: d in ms && ShouldEscalate(lens, d.severity)
  }

  predicate AnyBlocks(lens: Severity, ms: seq<Detection>) {
    exists d :: d in ms && Blocks(lens, d.severity)
  }

  function Correlated(lower: Severity -> Severity, ds: seq<Detection>, s: Signal, windowStart: int): Correlation {
    var ms := Matching(ds, s, windowStart);
    var escalated := AnyEscalates(s.severity, ms);
    Correlation(ms, escalated, s.severity, if escalated then EscalateSeverity(lower, s.severity) else s.severity,
                AnyBlocks(s.severity, ms), if ms == [] then NoMatch else ReasonFor(s, ms))
  }

  lemma AnyAppended(lens: Severity, ms: seq<Detection>, d: Detection)
    ensures AnyEscalates(lens, ms + [d]) <==> AnyEscalates(lens, ms) || ShouldEscalate(lens, d.severity)
    ensures AnyBlocks(lens, ms + [d]) <==> AnyBlocks(lens, ms) || Blocks(lens, d.severity)
  {
    forall x ensures x in ms + [d] <==> x in ms || x == d {
    }
  }

  lemma BlockEscalates(lens: Severity, ms: seq<Detection>)
    ensures AnyBlocks(lens, ms) ==> AnyEscalates(lens, ms)
  {
    if d :| d in ms && Blocks(lens, d.severity) {
      assert ShouldEscalate(lens, d.severity);
    }
  }

  lemma {:induction false} InMatching(ds: seq<Detection>, s: Signal, windowStart: int, d: Detection)
    ensures d in Matching(ds, s, windowStart) <==> d in ds && Counts(d, s, windowStart)
  {
    if ds != [] {
      var k := |ds| - 1;
      InMatching(ds[..k], s, windowStart, d);
      assert ds == ds[..k] + [ds[k]];
    }
  }

  /** A block is recommended exactly when some retained detection of the same domain in the window pairs
      as critical on either side or high on both, in whatever order detections arrived. */
  lemma {:induction false} BlockIffPaired(lower: Severity -> Severity, ds: seq<Detection>, s: Signal, windowStart: int)
    ensures Correlated(lower, ds, s, windowStart).recommendBlock <==>
            exists d :: d in ds && d.timestamp >= windowStart && d.domain == s.domain
                        && (s.severity == Critical || d.severity == Critical || s.severity == d.severity == High)
    ensures Correlated(lower, ds, s, windowStart).escalated <==>
            exists d :: d in ds && d.timestamp >= windowStart && d.domain == s.domain
                        && (s.severity == Critical || d.severity == Critical
                            || s.severity == d.severity == High || s.severity == d.severity == Medium)
  {
    forall d {
      InMatching(ds, s, windowStart, d);
    }
  }

  /** So two windows with the same detections, however ordered, give the same verdict. */
  lemma {:induction false} OrderDoesNotMatter(
    lower: Severity -> Severity, a: seq<Detection>, b: seq<Detection>, s: Signal, windowStart: int)
    requires multiset(a) == multiset(b)
    ensures var x, y := Correlated(lower, a, s, windowStart), Correlated(lower, b, s, windowStart);
            && x.recommendBlock == y.recommendBlock
            && x.escalated == y.escalated && x.escalatedSeverity == y.escalatedSeverity
            && multiset(x.matching) == multiset(y.matching)
  {
    forall d ensures d in a <==> d in b {
      assert d in a <==> d in multiset(a);
      assert d in b <==> d in multiset(b);
    }
    BlockIffPaired(lower, a, s, windowStart);
    BlockIffPaired(lower, b, s, windowStart);
    forall d ensures multiset(Matching(a, s, windowStart))[d] == multiset(Matching(b, s, windowStart))[d] {
      MatchingCount(a, s, windowStart, d);
      MatchingCount(b, s, windowStart, d);
    }
  }

  predicate IsBlockReason(r: Reason) {
    r.CriticalSeen? || r.DualHigh?
  }

  /** Some critical detection has no medium one behind it. */
  predicate EndsCritical(ms: seq<Detection>) {
    exists k :: 0 <= k < |ms| && ms[k].severity == Critical && NoMediumAfter(ms, k)
  }

  predicate NoMediumAfter(ms: seq<Detection>, k: nat) {
    forall j :: k < j < |ms| ==> ms[j].severity != Medium
  }

  /** The reason does depend on the order: a recommended block carries a block reason exactly when the signal
      is not of medium severity, or some critical match has no medium one behind it. */
  lemma {:induction false} BlockReasonIff(
    lower: Severity -> Severity, ds: seq<Detection>, s: Signal, windowStart: int)
    ensures IsBlockReason(Correlated(lower, ds, s, windowStart).reason) <==>
            && (exists d :: d in ds && d.timestamp >= windowStart && d.domain == s.domain
                            && (s.severity == Critical || d.severity == Critical || s.severity == d.severity == High))
            && (s.severity != Medium || EndsCritical(Matching(ds, s, windowStart)))
  {
    ReasonIsBlock(s, Matching(ds, s, windowStart));
    BlockIffPaired(lower, ds, s, windowStart);
  }

  lemma {:induction false} ReasonIsBlock(s: Signal, ms: seq<Detection>)
    ensures IsBlockReason(ReasonFor(s, ms)) <==> AnyBlocks(s.severity, ms) && (s.severity != Medium || EndsCritical(ms))
  {
    if ms != [] {
      var p, d := ms[..|ms| - 1], ms[|ms| - 1];
      ReasonIsBlock(s, p);
      assert p + [d] == ms;
      AnyAppended(s.severity, p, d);
      CriticalAppended(p, d);
    }
  }

  lemma CriticalAppended(ms: seq<Detection>, d: Detection)
    ensures EndsCritical(ms + [d]) <==> d.severity == Critical || (d.severity != Medium && EndsCritical(ms))
  {
    var t := ms + [d];
    assert t[|ms|] == d;
    if d.severity == Critical {
      assert NoMediumAfter(t, |ms|);
    }
    if k :| 0 <= k < |ms| && ms[k].severity == Critical && NoMediumAfter(ms, k) {
      assert t[k] == ms[k] && (d.severity != Medium ==> NoMediumAfter(t, k));
    }
    if k :| 0 <= k < |t| && t[k].severity == Critical && NoMediumAfter(t, k) {
      assert k < |ms| ==> ms[k] == t[k] && NoMediumAfter(ms, k) by {
        assert forall j :: 0 <= j < |ms| ==> ms[j] == t[j];
      }
    }
  }

  /** The other reasons: none without a match, and the common one when an escalation carries no block reason. */
  lemma {:induction false} OtherReasons(
    lower: Severity -> Severity, ds: seq<Detection>, s: Signal, windowStart: int)
    ensures var c := Correlated(lower, ds, s, windowStart);
            && (c.reason == NoMatch <==> c.matching == [])
            && (c.reason == BothDetected <==> c.escalated && !IsBlockReason(c.reason))
            && (c.reason == Unset <==> c.matching != [] && !c.escalated)
  {
    ReasonIsSet(s, Matching(ds, s, windowStart));
  }

  lemma {:induction false} ReasonIsSet(s: Signal, ms: seq<Detection>)
    ensures ReasonFor(s, ms) == Unset <==> !AnyEscalates(s.severity, ms)
    ensures ReasonFor(s, ms) != NoMatch
  {
    if ms != [] {
      ReasonIsSet(s, ms[..|ms| - 1]);
      assert ms[..|ms| - 1] + [ms[|ms| - 1]] == ms;
      AnyAppended(s.severity, ms[..|ms| - 1], ms[|ms| - 1]);
    }
  }

  /** A medium signal with a critical and a medium detection: the order decides the reason, not the block. */
  lemma {:induction false} ReasonDependsOnOrder(lower: Severity -> Severity, domain: string, at: int)
    ensures var critical, medium := Detection(domain, Critical, at), Detection(domain, Medium, at);
            var s := Signal(domain, Medium);
            var x, y := Correlated(lower, [critical, medium], s, at), Correlated(lower, [medium, critical], s, at);
            x.recommendBlock && y.recommendBlock && x.reason == BothDetected && y.reason == CriticalSeen
  {
    var critical, medium := Detection(domain, Critical, at), Detection(domain, Medium, at);
    var s := Signal(domain, Medium);
    MatchingTwo(critical, medium, s, at);
    MatchingTwo(medium, critical, s, at);
    assert critical in [critical, medium] && critical in [medium, critical];
    assert [critical, medium][1] == medium && [medium, critical][1] == critical;
  }

  lemma MatchingTwo(a: Detection, b: Detection, s: Signal, windowStart: int)
    requires Counts(a, s, windowStart) && Counts(b, s, windowStart)
    ensures Matching([a, b], s, windowStart) == [a, b]
  {
    assert [a, b][..1] == [a] && [a][..0] == [];
    assert Matching([a], s, windowStart) == [] + [a];
  }

  lemma {:induction false} MatchingCount(ds: seq<Detection>, s: Signal, windowStart: int, d: Detection)
    ensures multiset(Matching(ds, s, windowStart))[d] == if Counts(d, s, windowStart) then multiset(ds)[d] else 0
  {
    if ds != [] {
      var k := |ds| - 1;
      MatchingCount(ds[..k], s, windowStart, d);
      assert ds == ds[..k] + [ds[k]];
    }
  }

  // ----- pruning

  function Newest<T>(s: seq<T>, max: nat): seq<T> {
    if |s| <= max then s else s[|s| - max..]
  }

  /** The detections strictly after the window start. */
  function Unexpired(ds: seq<Detection>, windowStart: int): seq<Detection> {
    if ds == [] then []
    else
      var k := |ds| - 1;
      var before := Unexpired(ds[..k], windowStart);
      if ds[k].timestamp > windowStart then before + [ds[k]] else before
  }

  /** Expiring detections at one window start leaves the matches of a later one unchanged; at the very
      same start it drops exactly the matches stamped at that instant. */
  lemma {:induction false} ExpiredNeverMatch(ds: seq<Detection>, s: Signal, pruneStart: int, windowStart: int)
    requires pruneStart < windowStart
    ensures Matching(Unexpired(ds, pruneStart), s, windowStart) == Matching(ds, s, windowStart)
  {
    if ds != [] {
      var k := |ds| - 1;
      ExpiredNeverMatch(ds[..k], s, pruneStart, windowStart);
      var kept := Unexpired(ds[..k], pruneStart);
      assert (kept + [ds[k]])[..|kept|] == kept;
    }
  }

  lemma {:induction false} ExpiredAtSameReading(ds: seq<Detection>, s: Signal, windowStart: int)
    ensures |Matching(Unexpired(ds, windowStart), s, windowStart)| <= |Matching(ds, s, windowStart)|
    ensures Matching(Unexpired(ds, windowStart), s, windowStart) == Matching(ds, s, windowStart)
            <==> !exists d :: d in ds && d.timestamp == windowStart && d.domain == s.domain
  {
    if ds != [] {
      var k := |ds| - 1;
      ExpiredAtSameReading(ds[..k], s, windowStart);
      var kept := Unexpired(ds[..k], windowStart);
      assert (kept + [ds[k]])[..|kept|] == kept;
      assert ds == ds[..k] + [ds[k]];
      var a, b := Matching(kept, s, windowStart), Matching(ds[..k], s, windowStart);
      assert a + [ds[k]] == b + [ds[k]] ==> a == b by {
        if a + [ds[k]] == b + [ds[k]] {
          assert a == (a + [ds[k]])[..|a|] && b == (b + [ds[k]])[..|b|];
        }
      }
    }
  }

  /** A detection stamped exactly at the start of the window: it matches, but not after a prune. */
  lemma {:induction false} EdgeIsLost(d: Detection, s: Signal)
    requires d.domain == s.domain
    ensures Matching([d], s, d.timestamp) == [d]
    ensures Matching(Unexpired([d], d.timestamp), s, d.timestamp) == []
  {
    assert [d][..0] == [];
  }

  // ----- what one operation does to the state

  datatype Event = Received(signal: Signal, now: int) | Detected(d: Detection) | Pruned(now: int) | Resized(window: int)

  datatype State = State(signals: seq<Signal>, detections: seq<Detection>, stats: Stats, window: int)

  const FIVE_MINUTES := 5 * 60 * 1_000_000_000

  function Fresh(): State {
    State([], [], Stats(0, 0, 0, 0), FIVE_MINUTES)
  }

  function Step(lower: Severity -> Severity, max: nat, s: State, e: Event): State {
    match e
    case Received(signal, now) =>
      var c := Correlated(lower, s.detections, signal, now - s.window);
      s.(signals := Newest(s.signals + [signal], max), stats := Counted(s.stats, c))
    case Detected(d) => s.(detections := Newest(s.detections + [d], max))
    case Pruned(now) => s.(detections := Unexpired(s.detections, now - s.window), signals := Newest(s.signals, max))
    case Resized(window) => s.(window := window)
  }

  function Counted(stats: Stats, c: Correlation): Stats {
    Stats(stats.total + 1, stats.correlated + (if c.matching != [] then 1 else 0),
          stats.escalated + (if c.escalated then 1 else 0), stats.blocked + (if c.recommendBlock then 1 else 0))
  }

  function Run(lower: Severity -> Severity, max: nat, s: State, events: seq<Event>): State {
    if events == [] then s
    else Step(lower, max, Run(lower, max, s, events[..|events| - 1]), events[|events| - 1])
  }

  // ----- the receiver

  class Receiver {
    const lower: Severity -> Severity
    const maxSignals: nat
    var window: int
    var lensSignals: seq<Signal>
    var rampartDetections: seq<Detection>
    var stats: Stats

    /** The counters are ordered and both windows are bounded. */
    ghost predicate Valid()
      reads this
    {
      && stats.blocked <= stats.escalated <= stats.correlated <= stats.total
      && |lensSignals| <= maxSignals && |rampartDetections| <= maxSignals
    }

    ghost function Now(): State
      reads this
    {
      State(lensSignals, rampartDetections, stats, window)
    }

    constructor (lower: Severity -> Severity)
      ensures Valid() && Now() == Fresh() && this.lower == lower && maxSignals == 500
    {
      this.lower, maxSignals, window := lower, 500, FIVE_MINUTES;
      lensSignals, rampartDetections, stats := [], [], Stats(0, 0, 0, 0);
    }

    method SetWindowDuration(d: int)
      requires Valid()
      modifies this`window
      ensures Valid() && Now() == Step(lower, maxSignals, old(Now()), Resized(d))
    {
      window := d;
    }

    method ProcessSignal(signal: Signal, now: int) returns (r: Correlation)
      requires Valid()
      modifies this`lensSignals, this`stats
      ensures Valid() && r == Correlated(lower, rampartDetections, signal, now - window)
      ensures Now() == Step(lower, maxSignals, old(Now()), Received(signal, now))
    {
      lensSignals := lensSignals + [signal];
      PruneOldSignals();
      stats := stats.(total := stats.total + 1);
      r := Correlate(signal, now);
      BlockEscalates(signal.severity, r.matching);
      if r.escalated {
        stats := stats.(escalated := stats.escalated + 1);
      }
      if r.recommendBlock {
        stats := stats.(blocked := stats.blocked + 1);
      }
      if |r.matching| > 0 {
        stats := stats.(correlated := stats.correlated + 1);
      }
    }

    method Correlate(signal: Signal, now: int) returns (r: Correlation)
      ensures r == Correlated(lower, rampartDetections, signal, now - window)
    {
      var windowStart := now - window;
      r := Correlation([], false, signal.severity, signal.severity, false, Unset);
      for i := 0 to |rampartDetections|
        invariant r.matching == Matching(rampartDetections[..i], signal, windowStart)
        invariant r.originalSeverity == signal.severity && r.reason == ReasonFor(signal, r.matching)
        invariant r.escalated == AnyEscalates(signal.severity, r.matching)
        invariant r.escalatedSeverity
                  == if r.escalated then EscalateSeverity(lower, signal.severity) else signal.severity
        invariant r.recommendBlock == AnyBlocks(signal.severity, r.matching)
      {
        assert rampartDetections[..i + 1][..i] == rampartDetections[..i];
        var d := rampartDetections[i];
        if d.timestamp >= windowStart && d.domain == signal.domain {
          AnyAppended(signal.severity, r.matching, d);
          r := AddMatch(signal, d, r);
        }
      }
      assert rampartDetections[..|rampartDetections|] == rampartDetections;
      if r.matching == [] {
        r := r.(reason := NoMatch);
      }
    }

    /** One turn of the correlation loop for a matching detection. */
    method AddMatch(signal: Signal, d: Detection, before: Correlation) returns (r: Correlation)
      ensures r.matching == before.matching + [d] && r.originalSeverity == before.originalSeverity
      ensures r.escalated == (before.escalated || ShouldEscalate(signal.severity, d.severity))
      ensures r.escalatedSeverity == if ShouldEscalate(signal.severity, d.severity)
                                     then EscalateSeverity(lower, signal.severity)
                                     else before.escalatedSeverity
      ensures r.recommendBlock == (before.recommendBlock || Blocks(signal.severity, d.severity))
      ensures before.reason == ReasonFor(signal, before.matching) ==> r.reason == ReasonFor(signal, r.matching)
    {
      r := before.(matching := before.matching + [d]);
      assert r.matching[..|before.matching|] == before.matching;
      if ShouldEscalate(signal.severity, d.severity) {
        var severity := EscalateSeverity(lower, signal.severity);
        r := r.(escalated := true, escalatedSeverity := severity, reason := BothDetected);
      }
      if signal.severity == Critical || d.severity == Critical {
        r := r.(recommendBlock := true, reason := CriticalSeen);
      } else if signal.severity == High && d.severity == High {
        r := r.(recommendBlock := true, reason := DualHigh);
      }
    }

    method RecordRampartDetection(d: Detection)
      requires Valid()
      modifies this`rampartDetections
      ensures Valid() && Now() == Step(lower, maxSignals, old(Now()), Detected(d))
    {
      rampartDetections := rampartDetections + [d];
      if |rampartDetections| > maxSignals {
        rampartDetections := rampartDetections[|rampartDetections| - maxSignals..];
      }
    }

    method PruneOldSignals()
      modifies this`lensSignals
      ensures lensSignals == Newest(old(lensSignals), maxSignals)
    {
      if |lensSignals| > maxSignals {
        lensSignals := lensSignals[|lensSignals| - maxSignals..];
      }
    }

    method PruneExpired(now: int)
      requires Valid()
      modifies this`rampartDetections, this`lensSignals
      ensures Valid() && Now() == Step(lower, maxSignals, old(Now()), Pruned(now))
    {
      var windowStart, ds := now - window, rampartDetections;
      var kept := [];
      for i := 0 to |ds|
        invariant kept == Unexpired(ds[..i], windowStart)
      {
        assert ds[..i + 1][..i] == ds[..i];
        if ds[i].timestamp > windowStart {
          kept := kept + [ds[i]];
        }
      }
      assert ds[..|ds|] == ds;
      UnexpiredShorter(ds, windowStart);
      rampartDetections := kept;
      PruneOldSignals();
    }
  }

  // ----- whole runs

  /** Over every run the counters stay ordered and both windows bounded. */
  lemma {:induction false} RunKeepsOrder(lower: Severity -> Severity, max: nat, events: seq<Event>)
    ensures var s := Run(lower, max, Fresh(), events);
            s.stats.blocked <= s.stats.escalated <= s.stats.correlated <= s.stats.total
            && |s.signals| <= max && |s.detections| <= max
  {
    if events != [] {
      var k := |events| - 1;
      RunKeepsOrder(lower, max, events[..k]);
      StepKeepsOrder(lower, max, Run(lower, max, Fresh(), events[..k]), events[k]);
    }
  }

  lemma StepKeepsOrder(lower: Severity -> Severity, max: nat, s: State, e: Event)
    requires s.stats.blocked <= s.stats.escalated <= s.stats.correlated <= s.stats.total
    requires |s.signals| <= max && |s.detections| <= max
    ensures var t := Step(lower, max, s, e);
            t.stats.blocked <= t.stats.escalated <= t.stats.correlated <= t.stats.total
            && |t.signals| <= max && |t.detections| <= max
  {
    match e {
      case Received(signal, now) => BlockEscalates(signal.severity, Matching(s.detections, signal, now - s.window));
      case Detected(d) =>
      case Pruned(now) => UnexpiredShorter(s.detections, now - s.window);
      case Resized(d) =>
    }
  }

  lemma {:induction false} UnexpiredShorter(ds: seq<Detection>, windowStart: int)
    ensures |Unexpired(ds, windowStart)| <= |ds|
  {
    if ds != [] {
      UnexpiredShorter(ds[..|ds| - 1], windowStart);
    }
  }

  /** Neither a new detection nor another window length, and any prune made before `now`. */
  ghost predicate Quiet(events: seq<Event>, now: int) {
    forall e :: e in events ==> !e.Detected? && !e.Resized? && (e.Pruned? ==> e.now < now)
  }

  /** Signals and prunes before `now` do not change what a signal at `now` is correlated with. */
  lemma {:induction false} PrunesAreInvisible(
    lower: Severity -> Severity, max: nat, s: State, events: seq<Event>, signal: Signal, now: int)
    requires Quiet(events, now)
    ensures var t := Run(lower, max, s, events);
            && t.window == s.window
            && Correlated(lower, t.detections, signal, now - t.window)
               == Correlated(lower, s.detections, signal, now - s.window)
  {
    MatchesSurvive(lower, max, s, events, signal, now);
  }

  lemma {:induction false} MatchesSurvive(
    lower: Severity -> Severity, max: nat, s: State, events: seq<Event>, signal: Signal, now: int)
    requires Quiet(events, now)
    ensures var t := Run(lower, max, s, events);
            t.window == s.window
            && Matching(t.detections, signal, now - s.window) == Matching(s.detections, signal, now - s.window)
  {
    if events != [] {
      var k := |events| - 1;
      MatchesSurvive(lower, max, s, events[..k], signal, now);
      QuietStep(lower, max, Run(lower, max, s, events[..k]), events[k], signal, now);
    }
  }

  lemma QuietStep(lower: Severity -> Severity, max: nat, s: State, e: Event, signal: Signal, now: int)
    requires Quiet([e], now)
    ensures var t := Step(lower, max, s, e);
            t.window == s.window
            && Matching(t.detections, signal, now - s.window) == Matching(s.detections, signal, now - s.window)
  {
    assert e in [e];
    if e.Pruned? {
      ExpiredNeverMatch(s.detections, signal, e.now - s.window, now - s.window);
    }
  }

  // ----- what the counters count

  /** What the i-th event of a run was correlated with, when it is a signal. */
  function CorrelationAt(lower: Severity -> Severity, max: nat, events: seq<Event>, i: nat): Correlation
    requires i < |events| && events[i].Received?
  {
    var s := Run(lower, max, Fresh(), events[..i]);
    Correlated(lower, s.detections, events[i].signal, events[i].now - s.window)
  }

  ghost function SignalAt(lower: Severity -> Severity, max: nat, events: seq<Event>, p: Correlation -> bool)
    : int -> bool
  {
    i => 0 <= i < |events| && events[i].Received? && p(CorrelationAt(lower, max, events, i))
  }

  /** The counters are the numbers of signals, of correlated, of escalated, and of blocked ones. */
  lemma {:induction false} RunCounts(lower: Severity -> Severity, max: nat, events: seq<Event>, n: nat)
    requires n <= |events|
    ensures var stats := Run(lower, max, Fresh(), events[..n]).stats;
            && stats.total == |Places(n, SignalAt(lower, max, events, All()))|
            && stats.correlated == |Places(n, SignalAt(lower, max, events, HasMatch()))|
            && stats.escalated == |Places(n, SignalAt(lower, max, events, IsEscalated()))|
            && stats.blocked == |Places(n, SignalAt(lower, max, events, IsBlocked()))|
  {
    if n > 0 {
      RunCounts(lower, max, events, n - 1);
      PlacesGrow(n, SignalAt(lower, max, events, All()));
      PlacesGrow(n, SignalAt(lower, max, events, HasMatch()));
      PlacesGrow(n, SignalAt(lower, max, events, IsEscalated()));
      PlacesGrow(n, SignalAt(lower, max, events, IsBlocked()));
      OneMoreEvent(lower, max, events, n);
    }
  }

  lemma OneMoreEvent(lower: Severity -> Severity, max: nat, events: seq<Event>, n: nat)
    requires 0 < n <= |events|
    ensures var was := Run(lower, max, Fresh(), events[..n - 1]).stats;
            Run(lower, max, Fresh(), events[..n]).stats
            == if events[n - 1].Received? then Counted(was, CorrelationAt(lower, max, events, n - 1)) else was
  {
    assert events[..n][..n - 1] == events[..n - 1];
  }

  function All(): Correlation -> bool { (c: Correlation) => true }

  function HasMatch(): Correlation -> bool { (c: Correlation) => c.matching != [] }

  function IsEscalated(): Correlation -> bool { (c: Correlation) => c.escalated }

  function IsBlocked(): Correlation -> bool { (c: Correlation) => c.recommendBlock }

  /** A full window keeps its newest entries. */
  lemma NewestIs<T>(s: seq<T>, max: nat)
    ensures |Newest(s, max)| == Min(|s|, max) && Newest(s, max) == s[|s| - |Newest(s, max)|..]
  {
  }
}
