/** The worker pool: every interleaving of sends, channel receives, cache reads, cache writes and result
    writes, with other callers and cache resets at any moment. Each step is what one goroutine does
    between two points where another could run. */
module BatchDetect {
  import opened Common
  import opened Latency
  import opened Memoisation
  import Detector
  import LruCache

  datatype Batch = Batch(
    rt: Runtime, variants: Variants, capacity: nat, texts: seq<string>, ghost universe: iset<string>)

  datatype Worker =
    | Idle
    | Taken(job: nat)                      // received a job
    | Missed(job: nat)                     // not in the cache
    | Detected(job: nat, r: ThreatScore)   // scored, not yet stored
    | Ready(job: nat, r: ThreatScore)      // about to write the result
    | Exited                               // saw the channel closed and empty

  datatype State = State(
    sent: nat, closed: bool, queue: seq<nat>, workers: seq<Worker>,
    cache: seq<LruCache.Pair<ThreatScore>>, results: seq<ThreatScore>)

  /** The number of workers: the CPU count, at least 4, at most 8. */
  function WorkerCount(numCpu: int): (n: nat)
    ensures 4 <= n <= 8 && (4 <= numCpu <= 8 ==> n == numCpu)
  {
    Min(Max(numCpu, 4), 8)
  }

  function Start(b: Batch, workers: nat, cache: seq<LruCache.Pair<ThreatScore>>): State {
    State(0, false, [], seq(workers, _ => Idle), cache, seq(|b.texts|, _ => ThreatScore(0, false, "")))
  }

  datatype Step =
    | Send | Close                           // the sender
    | Take(w: nat) | Exit(w: nat)            // receiving from the channel
    | Fast(w: nat) | Lookup(w: nat)          // the fast path, or the cache read
    | Detect(w: nat) | Store(w: nat)         // on a miss: score, then the cache write
    | Write(w: nat)                          // results[idx] = ...
    | Reset                                  // ResetCache
    | OutsideGet(key: nat) | OutsidePut(text: string)  // other callers of the same optimizer

  /** The state after a step, if the step can be taken. */
  ghost function Next(b: Batch, s: State, step: Step): Option<State> {
    match step
    case Send =>
      if s.sent < |b.texts| then Some(s.(sent := s.sent + 1, queue := s.queue + [s.sent])) else None
    case Close =>
      if s.sent == |b.texts| && !s.closed then Some(s.(closed := true)) else None
    case Reset => Some(s.(cache := []))
    case OutsideGet(key) => Some(s.(cache := LruCache.AfterGet(s.cache, key)))
    case OutsidePut(text) =>
      if text in b.universe && |text| >= FAST_PATH then
        Some(s.(cache := LruCache.AfterPut(b.capacity, s.cache, b.rt.hash(text), VerdictOf(b.rt, b.variants, text))))
      else None
    case _ => if step.w < |s.workers| then WorkerStep(b, s, step) else None
  }

  ghost function WorkerStep(b: Batch, s: State, step: Step): Option<State>
    requires step.Take? || step.Exit? || step.Fast? || step.Lookup? || step.Detect? || step.Store? || step.Write?
    requires step.w < |s.workers|
  {
    var w := step.w;
    match (step, s.workers[w])
    case (Take(_), Idle) =>
      if s.queue != [] then Some(s.(queue := s.queue[1..], workers := s.workers[w := Taken(s.queue[0])])) else None
    case (Exit(_), Idle) =>
      if s.queue == [] && s.closed then Some(s.(workers := s.workers[w := Exited])) else None
    case (Fast(_), Taken(job)) =>
      if job < |b.texts| && |b.texts[job]| < FAST_PATH then
        Some(s.(workers := s.workers[w := Ready(job, FAST)]))
      else None
    case (Lookup(_), Taken(job)) =>
      if job < |b.texts| && |b.texts[job]| >= FAST_PATH then
        var key := b.rt.hash(b.texts[job]);
        var worker := match LruCache.Lookup(s.cache, key) case Some(r) => Ready(job, r) case None => Missed(job);
        Some(s.(cache := LruCache.AfterGet(s.cache, key), workers := s.workers[w := worker]))
      else None
    case (Detect(_), Missed(job)) =>
      if job < |b.texts| then
        var r := PureScore(Detector.Lower(b.rt.decode(b.texts[job])), b.variants);
        Some(s.(workers := s.workers[w := Detected(job, r)]))
      else None
    case (Store(_), Detected(job, r)) =>
      if job < |b.texts| then
        Some(s.(cache := LruCache.AfterPut(b.capacity, s.cache, b.rt.hash(b.texts[job]), r),
                workers := s.workers[w := Ready(job, r)]))
      else None
    case (Write(_), Ready(job, r)) =>
      if job < |s.results| then Some(s.(results := s.results[job := r], workers := s.workers[w := Idle])) else None
    case _ => None
  }

  /** The state after all the steps, if each can be taken in turn. */
  ghost function Run(b: Batch, s: State, steps: seq<Step>): Option<State> {
    if steps == [] then Some(s)
    else
      match Run(b, s, steps[..|steps| - 1])
      case None => None
      case Some(t) => Next(b, t, steps[|steps| - 1])
  }

  /** wg.Wait() returns. */
  predicate Finished(s: State) {
    forall w :: 0 <= w < |s.workers| ==> s.workers[w].Exited?
  }

  // ----- what every step keeps

  ghost predicate Sound(b: Batch) {
    NoClash(b.rt, b.variants, b.universe) && forall i :: 0 <= i < |b.texts| ==> b.texts[i] in b.universe
  }

  ghost predicate Right(b: Batch, job: nat, r: ThreatScore) {
    job < |b.texts| && r == VerdictOf(b.rt, b.variants, b.texts[job])
  }

  /** What a worker holds is a job of the batch, with its own verdict once there is one. */
  ghost predicate WorkerRight(b: Batch, w: Worker) {
    match w
    case Idle => true
    case Exited => true
    case Taken(job) => job < |b.texts|
    case Missed(job) => job < |b.texts| && |b.texts[job]| >= FAST_PATH
    case Detected(job, r) => Right(b, job, r) && |b.texts[job]| >= FAST_PATH
    case Ready(job, r) => Right(b, job, r)
  }

  predicate Holds(w: Worker, job: nat) {
    !w.Idle? && !w.Exited? && w.job == job
  }

  /** A sent job is still queued, or held by a worker, or answered. */
  ghost predicate Accounted(b: Batch, s: State, job: nat) {
    || job in s.queue
    || (exists w :: 0 <= w < |s.workers| && Holds(s.workers[w], job))
    || (job < |s.results| && Right(b, job, s.results[job]))
  }

  ghost predicate Inv(b: Batch, s: State) {
    && |s.results| == |b.texts|
    && s.sent <= |b.texts|
    && (s.closed ==> s.sent == |b.texts|)
    && (forall i :: 0 <= i < |s.queue| ==> s.queue[i] < |b.texts|)
    && Faithful(b.rt, b.variants, b.universe, s.cache)
    && (forall w :: 0 <= w < |s.workers| ==> WorkerRight(b, s.workers[w]))
    && (forall w :: 0 <= w < |s.workers| && s.workers[w].Exited? ==> s.closed && s.queue == [])
    && (forall job :: 0 <= job < s.sent ==> Accounted(b, s, job))
  }

  lemma {:induction false} SenderKeeps(b: Batch, s: State, step: Step)
    requires Sound(b) && Inv(b, s) && Next(b, s, step).Some?
    requires step.Send? || step.Close? || step.Reset? || step.OutsideGet? || step.OutsidePut?
    ensures Inv(b, Next(b, s, step).value)
  {
    var t := Next(b, s, step).value;
    match step {
      case Send =>
        assert t.queue[|s.queue|] == s.sent;
        assert forall job :: job in s.queue ==> job in t.queue;
      case OutsideGet(key) => GetFaithful(b.rt, b.variants, b.universe, s.cache, key);
      case OutsidePut(text) => PutFaithful(b.rt, b.variants, b.universe, b.capacity, s.cache, text);
      case _ =>
    }
    forall job | 0 <= job < t.sent ensures Accounted(b, t, job) {
      assert job < s.sent ==> Accounted(b, s, job);
    }
  }

  /** What matters of a worker's step: it keeps its job, or hands it over answered. */
  lemma {:induction false} WorkerAccounts(b: Batch, s: State, t: State, w: nat, job: nat)
    requires w < |s.workers| == |t.workers| && t.workers == s.workers[w := t.workers[w]]
    requires Accounted(b, s, job)
    requires job in s.queue ==> job in t.queue || Holds(t.workers[w], job)
    requires Holds(s.workers[w], job) ==>
               Holds(t.workers[w], job) || (job < |t.results| && Right(b, job, t.results[job]))
    requires job < |s.results| && Right(b, job, s.results[job]) ==> job < |t.results| && Right(b, job, t.results[job])
    ensures Accounted(b, t, job)
  {
    if v :| 0 <= v < |s.workers| && Holds(s.workers[v], job) {
      assert v != w ==> t.workers[v] == s.workers[v];
    }
  }

  lemma {:induction false} WorkerKeepsCache(b: Batch, s: State, step: Step)
    requires Sound(b) && Inv(b, s) && Next(b, s, step).Some?
    requires step.Take? || step.Exit? || step.Fast? || step.Lookup? || step.Detect? || step.Store? || step.Write?
    ensures var t := Next(b, s, step).value;
            Faithful(b.rt, b.variants, b.universe, t.cache) && WorkerRight(b, t.workers[step.w])
  {
    match (step, s.workers[step.w])
    case (Lookup(_), Taken(job)) =>
      GetFaithful(b.rt, b.variants, b.universe, s.cache, b.rt.hash(b.texts[job]));
    case (Store(_), Detected(job, r)) =>
      PutFaithful(b.rt, b.variants, b.universe, b.capacity, s.cache, b.texts[job]);
    case _ =>
  }

  lemma {:induction false} WorkerKeeps(b: Batch, s: State, step: Step)
    requires Sound(b) && Inv(b, s) && Next(b, s, step).Some?
    requires step.Take? || step.Exit? || step.Fast? || step.Lookup? || step.Detect? || step.Store? || step.Write?
    ensures Inv(b, Next(b, s, step).value)
  {
    var t, w := Next(b, s, step).value, step.w;
    WorkerKeepsCache(b, s, step);
    forall job | 0 <= job < t.sent ensures Accounted(b, t, job) {
      assert Accounted(b, s, job);
      WorkerAccounts(b, s, t, w, job);
    }
  }

  lemma {:induction false} RunKeeps(b: Batch, s: State, steps: seq<Step>)
    requires Sound(b) && Inv(b, s) && Run(b, s, steps).Some?
    ensures Inv(b, Run(b, s, steps).value) && |Run(b, s, steps).value.workers| == |s.workers|
  {
    if steps != [] {
      var n := |steps| - 1;
      RunKeeps(b, s, steps[..n]);
      StepKeeps(b, Run(b, s, steps[..n]).value, steps[n]);
    }
  }

  lemma StepKeeps(b: Batch, s: State, step: Step)
    requires Sound(b) && Inv(b, s) && Next(b, s, step).Some?
    ensures Inv(b, Next(b, s, step).value) && |Next(b, s, step).value.workers| == |s.workers|
  {
    if step.Send? || step.Close? || step.Reset? || step.OutsideGet? || step.OutsidePut? {
      SenderKeeps(b, s, step);
    } else {
      WorkerKeeps(b, s, step);
    }
  }

  /** Whatever the interleaving, evictions, resets and other callers: when the pool is done, the result
      at each index is the verdict of the text at that index. */
  lemma {:induction false} BatchIsPointwise(
    b: Batch, workers: nat, cache: seq<LruCache.Pair<ThreatScore>>, steps: seq<Step>)
    requires Sound(b) && workers > 0 && Faithful(b.rt, b.variants, b.universe, cache)
    requires Run(b, Start(b, workers, cache), steps).Some?
    requires Finished(Run(b, Start(b, workers, cache), steps).value)
    ensures var results := Run(b, Start(b, workers, cache), steps).value.results;
            |results| == |b.texts|
            && forall i :: 0 <= i < |results| ==> results[i] == VerdictOf(b.rt, b.variants, b.texts[i])
  {
    var s := Start(b, workers, cache);
    RunKeeps(b, s, steps);
    var t := Run(b, s, steps).value;
    assert t.workers[0].Exited?;
    forall i | 0 <= i < |t.results| ensures t.results[i] == VerdictOf(b.rt, b.variants, b.texts[i]) {
      assert Accounted(b, t, i);
    }
  }

  // ----- the pool never gets stuck

  predicate Internal(step: Step) {
    !step.Reset? && !step.OutsideGet? && !step.OutsidePut?
  }

  /** Until it is done, the sender or some worker can take a step. */
  lemma {:induction false} NeverStuck(b: Batch, s: State) returns (step: Step)
    requires Inv(b, s) && !Finished(s)
    ensures Internal(step) && Next(b, s, step).Some?
  {
    var w: nat :| w < |s.workers| && !s.workers[w].Exited?;
    step := match s.workers[w]
      case Taken(job) => if |b.texts[job]| < FAST_PATH then Fast(w) else Lookup(w)
      case Missed(_) => Detect(w)
      case Detected(_, _) => Store(w)
      case Ready(_, _) => Write(w)
      case _ =>
        if s.queue != [] then Take(w) else if s.closed then Exit(w) else if s.sent < |b.texts| then Send else Close;
  }

  function Work(w: Worker): nat {
    match w
    case Exited => 0
    case Idle => 1
    case Ready(_, _) => 2
    case Detected(_, _) => 3
    case Missed(_) => 4
    case Taken(_) => 5
  }

  function TotalWork(workers: seq<Worker>): nat {
    if workers == [] then 0 else TotalWork(workers[..|workers| - 1]) + Work(workers[|workers| - 1])
  }

  /** Steps the pool can still take without outside help. */
  function Remaining(b: Batch, s: State): int {
    6 * (|b.texts| - s.sent) + (if s.closed then 0 else 1) + 5 * |s.queue| + TotalWork(s.workers)
  }

  lemma {:induction false} TotalWorkUpdate(workers: seq<Worker>, w: nat, x: Worker)
    requires w < |workers|
    ensures TotalWork(workers[w := x]) == TotalWork(workers) - Work(workers[w]) + Work(x)
  {
    var n := |workers| - 1;
    if w < n {
      TotalWorkUpdate(workers[..n], w, x);
      assert workers[w := x][..n] == workers[..n][w := x];
    } else {
      assert workers[w := x][..n] == workers[..n];
    }
  }

  /** Every step of the sender or a worker brings the end nearer; outside steps do not move it. */
  lemma {:induction false} StepsRunOut(b: Batch, s: State, step: Step)
    requires s.sent <= |b.texts| && Next(b, s, step).Some?
    ensures var t := Next(b, s, step).value;
            && 0 <= Remaining(b, t)
            && if Internal(step) then Remaining(b, t) < Remaining(b, s) else Remaining(b, t) == Remaining(b, s)
  {
    if step.Take? || step.Exit? || step.Fast? || step.Lookup? || step.Detect? || step.Store? || step.Write? {
      WorkerRunsOut(b, s, step);
    }
  }

  lemma WorkerRunsOut(b: Batch, s: State, step: Step)
    requires s.sent <= |b.texts| && Next(b, s, step).Some?
    requires step.Take? || step.Exit? || step.Fast? || step.Lookup? || step.Detect? || step.Store? || step.Write?
    ensures 0 <= Remaining(b, Next(b, s, step).value) < Remaining(b, s)
  {
    var t := Next(b, s, step).value;
    TotalWorkUpdate(s.workers, step.w, t.workers[step.w]);
    WorkGoesDown(b, s, step);
  }

  lemma WorkGoesDown(b: Batch, s: State, step: Step)
    requires Next(b, s, step).Some?
    requires step.Take? || step.Exit? || step.Fast? || step.Lookup? || step.Detect? || step.Store? || step.Write?
    ensures var t := Next(b, s, step).value;
            && step.w < |s.workers| && t.workers == s.workers[step.w := t.workers[step.w]]
            && t.sent == s.sent && t.closed == s.closed
            && 5 * |t.queue| + Work(t.workers[step.w]) < 5 * |s.queue| + Work(s.workers[step.w])
  {
  }

  function InternalSteps(steps: seq<Step>): nat {
    if steps == [] then 0
    else if Internal(steps[|steps| - 1]) then InternalSteps(steps[..|steps| - 1]) + 1
    else InternalSteps(steps[..|steps| - 1])
  }

  /** So a run takes at most Remaining steps of its own, however many steps others take in between. */
  lemma {:induction false} RunIsBounded(b: Batch, s: State, steps: seq<Step>)
    requires s.sent <= |b.texts| && Run(b, s, steps).Some?
    ensures var t := Run(b, s, steps).value;
            t.sent <= |b.texts| && 0 <= Remaining(b, t) && InternalSteps(steps) + Remaining(b, t) <= Remaining(b, s)
  {
    if steps != [] {
      var n := |steps| - 1;
      RunIsBounded(b, s, steps[..n]);
      StepsRunOut(b, Run(b, s, steps[..n]).value, steps[n]);
    }
  }

  /** A first step and the rest of a run. */
  lemma {:induction false} RunFrom(b: Batch, s: State, step: Step, rest: seq<Step>)
    requires Next(b, s, step).Some?
    ensures Run(b, s, [step] + rest) == Run(b, Next(b, s, step).value, rest)
  {
    var steps := [step] + rest;
    if rest == [] {
      assert steps[..0] == [];
    } else {
      RunFrom(b, s, step, rest[..|rest| - 1]);
      assert steps[..|steps| - 1] == [step] + rest[..|rest| - 1];
    }
  }

  /** From every state the invariant allows, the pool can run on by itself until it is done. */
  lemma {:induction false} CanFinish(b: Batch, s: State) returns (steps: seq<Step>)
    requires Sound(b) && Inv(b, s)
    ensures Run(b, s, steps).Some? && Finished(Run(b, s, steps).value)
    ensures forall step :: step in steps ==> Internal(step)
    decreases Remaining(b, s)
  {
    if Finished(s) {
      steps := [];
    } else {
      var step := NeverStuck(b, s);
      StepKeeps(b, s, step);
      StepsRunOut(b, s, step);
      var rest := CanFinish(b, Next(b, s, step).value);
      RunFrom(b, s, step, rest);
      steps := [step] + rest;
    }
  }

  /** So every run can be extended to a finished one, whose results are then the verdicts. */
  lemma {:induction false} EveryRunCanFinish(
    b: Batch, workers: nat, cache: seq<LruCache.Pair<ThreatScore>>, steps: seq<Step>) returns (more: seq<Step>)
    requires Sound(b) && workers > 0 && Faithful(b.rt, b.variants, b.universe, cache)
    requires Run(b, Start(b, workers, cache), steps).Some?
    ensures var s := Run(b, Start(b, workers, cache), steps + more);
            s.Some? && Finished(s.value)
            && |s.value.results| == |b.texts|
            && forall i :: 0 <= i < |b.texts| ==> s.value.results[i] == VerdictOf(b.rt, b.variants, b.texts[i])
  {
    var start := Start(b, workers, cache);
    RunKeeps(b, start, steps);
    more := CanFinish(b, Run(b, start, steps).value);
    RunOn(b, start, steps, more);
    BatchIsPointwise(b, workers, cache, steps + more);
  }

  lemma {:induction false} RunOn(b: Batch, s: State, steps: seq<Step>, more: seq<Step>)
    requires Run(b, s, steps).Some?
    ensures Run(b, s, steps + more) == Run(b, Run(b, s, steps).value, more)
  {
    if more == [] {
      assert steps + more == steps;
    } else {
      RunOn(b, s, steps, more[..|more| - 1]);
      assert (steps + more)[..|steps + more| - 1] == steps + more[..|more| - 1];
    }
  }

  /** The condition on hashes is needed: with one text in the batch and any number of workers, another caller
      whose text clashes with it can make the pool finish with the other verdict. */
  lemma {:induction false} ClashSpoilsBatch(b: Batch, workers: nat, other: string) returns (steps: seq<Step>)
    requires workers > 0 && |b.texts| == 1 && |b.texts[0]| >= FAST_PATH
    requires |other| >= FAST_PATH && other in b.universe && b.rt.hash(other) == b.rt.hash(b.texts[0])
    requires VerdictOf(b.rt, b.variants, other) != VerdictOf(b.rt, b.variants, b.texts[0])
    ensures var s := Run(b, Start(b, workers, []), steps);
            && s.Some? && Finished(s.value) && |s.value.results| == 1
            && s.value.results[0] != VerdictOf(b.rt, b.variants, b.texts[0])
  {
    var key, r := b.rt.hash(other), VerdictOf(b.rt, b.variants, other);
    var none: seq<LruCache.Pair<ThreatScore>> := [];
    assert !LruCache.Has(none, key);
    var cache := [LruCache.Pair(key, r)];
    assert LruCache.AfterPut(b.capacity, none, key, r) == [LruCache.Pair(key, r)] + none == cache;
    var s0 := Start(b, workers, none);
    var s1 := s0.(cache := cache);
    var s2 := s1.(sent := 1, queue := [0]);
    var s3 := s2.(closed := true);
    var s4 := s3.(queue := [], workers := s3.workers[0 := Taken(0)]);
    assert s1.queue + [0] == [0] && [0][1..] == [];
    assert Next(b, s0, OutsidePut(other)) == Some(s1);
    assert Next(b, s1, Send) == Some(s2);
    assert Next(b, s2, Close) == Some(s3);
    assert Next(b, s3, Take(0)) == Some(s4);
    var rest := AnswerFromCache(b, s4, r);
    RunFrom(b, s3, Take(0), rest);
    RunFrom(b, s2, Close, [Take(0)] + rest);
    RunFrom(b, s1, Send, [Close] + ([Take(0)] + rest));
    RunFrom(b, s0, OutsidePut(other), [Send] + ([Close] + ([Take(0)] + rest)));
    steps := [OutsidePut(other)] + ([Send] + ([Close] + ([Take(0)] + rest)));
  }

  /** The first worker, which took the only text, answers it from the cache; then all workers leave. */
  lemma {:induction false} AnswerFromCache(b: Batch, s: State, r: ThreatScore) returns (steps: seq<Step>)
    requires |b.texts| == |s.results| == 1 && |b.texts[0]| >= FAST_PATH
    requires s.workers != [] && s.workers[0] == Taken(0) && s.queue == [] && s.closed
    requires forall w :: 0 < w < |s.workers| ==> s.workers[w].Idle?
    requires s.cache == [LruCache.Pair(b.rt.hash(b.texts[0]), r)]
    ensures var t := Run(b, s, steps); t.Some? && Finished(t.value) && t.value.results == [r]
  {
    var key := b.rt.hash(b.texts[0]);
    assert s.cache[0].key == key && LruCache.Lookup(s.cache, key) == Some(r);
    assert LruCache.AfterGet(s.cache, key) == s.cache;
    var s1 := s.(workers := s.workers[0 := Ready(0, r)]);
    var s2 := s1.(results := [r], workers := s1.workers[0 := Idle]);
    assert s.results[0 := r] == [r];
    assert Next(b, s, Lookup(0)) == Some(s1);
    assert Next(b, s1, Write(0)) == Some(s2);
    var rest := AllLeave(b, s2, 0);
    RunFrom(b, s1, Write(0), rest);
    RunFrom(b, s, Lookup(0), [Write(0)] + rest);
    steps := [Lookup(0)] + ([Write(0)] + rest);
  }

  /** With nothing left to do, the workers from the k-th on leave one by one. */
  lemma {:induction false} AllLeave(b: Batch, s: State, k: nat) returns (steps: seq<Step>)
    requires k <= |s.workers| && s.queue == [] && s.closed
    requires forall w :: 0 <= w < |s.workers| ==> if w < k then s.workers[w].Exited? else s.workers[w].Idle?
    ensures var t := Run(b, s, steps); t.Some? && Finished(t.value) && t.value.results == s.results
    decreases |s.workers| - k
  {
    if k == |s.workers| {
      steps := [];
    } else {
      var t := s.(workers := s.workers[k := Exited]);
      assert Next(b, s, Exit(k)) == Some(t);
      var rest := AllLeave(b, t, k + 1);
      RunFrom(b, s, Exit(k), rest);
      steps := [Exit(k)] + rest;
    }
  }
}
