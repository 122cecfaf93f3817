/** The sliding-window token limiter: a per-client log that forgets old grants, against a
    reference that never forgets. Instants and durations are integers (nanoseconds). */
module TokenLimiter {
  import opened Common

  type Client = string

  datatype Entry = Entry(tokens: int, timestamp: int)

  datatype Config = Config(tokensPerMinute: int, maxResponsesPerMinute: int, maxTokensPerResponse: int, window: int)

  datatype Decision = Allowed | TokenRateExceeded | RequestRateExceeded | ResponseTooLarge

  type Usage = map<Client, seq<Entry>>

  // ----- specification functions

  function LogOf(usage: Usage, client: Client): seq<Entry> {
    if client in usage then usage[client] else []
  }

  /** The entries stamped strictly after `start`, in order. */
  function After(log: seq<Entry>, start: int): seq<Entry> {
    if log == [] then []
    else
      var n := |log| - 1;
      var before := After(log[..n], start);
      if log[n].timestamp > start then before + [log[n]] else before
  }

  function Tokens(log: seq<Entry>): int {
    if log == [] then 0 else Tokens(log[..|log| - 1]) + log[|log| - 1].tokens
  }

  /** The three checks in the order the limiter makes them. */
  function Decide(config: Config, recent: seq<Entry>, tokens: int): Decision {
    if Tokens(recent) + tokens > config.tokensPerMinute then TokenRateExceeded
    else if |recent| + 1 > config.maxResponsesPerMinute then RequestRateExceeded
    else if tokens > config.maxTokensPerResponse then ResponseTooLarge
    else Allowed
  }

  datatype Op = Allow(client: Client, tokens: int) | ResetUsage(client: Client) | ResetAll

  datatype Call = Call(now: int, op: Op)

  /** One call. A limiter that prunes stores only the entries it still needs; the reference stores all. */
  function Step(config: Config, prune: bool, usage: Usage, call: Call): (Usage, Option<Decision>) {
    match call.op
    case Allow(client, tokens) =>
      var log := LogOf(usage, client);
      var recent := After(log, call.now - config.window);
      var decision := Decide(config, recent, tokens);
      var grant := [Entry(tokens, call.now)];
      (if decision.Allowed? then usage[client := (if prune then recent else log) + grant] else usage, Some(decision))
    case ResetUsage(client) => (usage - {client}, None)
    case ResetAll => (map[], None)
  }

  /** The state after a run of calls from an empty limiter, and every decision made on the way. */
  function Run(config: Config, prune: bool, calls: seq<Call>): (r: (Usage, seq<Option<Decision>>))
    ensures |r.1| == |calls|
  {
    if calls == [] then (map[], [])
    else
      var n := |calls| - 1;
      var (usage, decisions) := Run(config, prune, calls[..n]);
      var (usage', decision) := Step(config, prune, usage, calls[n]);
      (usage', decisions + [decision])
  }

  ghost predicate ClockNeverGoesBack(calls: seq<Call>) {
    forall i, j :: 0 <= i < j < |calls| ==> calls[i].now <= calls[j].now
  }

  ghost predicate NoNegativeCounts(calls: seq<Call>) {
    forall i :: 0 <= i < |calls| && calls[i].op.Allow? ==> calls[i].op.tokens >= 0
  }

  /** The grants stamped in the half-open window (t - window, t]. */
  function InWindow(log: seq<Entry>, t: int, window: int): seq<Entry> {
    if log == [] then []
    else
      var n := |log| - 1;
      var before := InWindow(log[..n], t, window);
      if t - window < log[n].timestamp <= t then before + [log[n]] else before
  }

  // ----- the limiter itself

  class Limiter {
    const config: Config
    var usage: Usage

    constructor (config: Config)
      ensures this.config == config && usage == map[]
    {
      this.config := config;
      usage := map[];
    }

    method AllowToken(client: Client, tokens: int, now: int) returns (decision: Decision)
      modifies this
      ensures (usage, Some(decision)) == Step(config, true, old(usage), Call(now, Allow(client, tokens)))
    {
      var windowStart := now - config.window;
      var entries := LogOf(usage, client);
      var validEntries := [];
      for i := 0 to |entries|
        invariant validEntries == After(entries[..i], windowStart)
      {
        assert entries[..i + 1][..i] == entries[..i];
        if entries[i].timestamp > windowStart {
          validEntries := validEntries + [entries[i]];
        }
      }
      assert entries[..|entries|] == entries;

      var totalTokens := 0;
      var requestCount := |validEntries|;
      for i := 0 to |validEntries|
        invariant totalTokens == Tokens(validEntries[..i])
      {
        assert validEntries[..i + 1][..i] == validEntries[..i];
        totalTokens := totalTokens + validEntries[i].tokens;
      }
      assert validEntries[..|validEntries|] == validEntries;

      if totalTokens + tokens > config.tokensPerMinute {
        return TokenRateExceeded;
      }
      if requestCount + 1 > config.maxResponsesPerMinute {
        return RequestRateExceeded;
      }
      if tokens > config.maxTokensPerResponse {
        return ResponseTooLarge;
      }
      usage := usage[client := validEntries + [Entry(tokens, now)]];
      return Allowed;
    }

    method GetUsage(client: Client, now: int) returns (tokens: int, requests: nat)
      ensures tokens == Tokens(After(LogOf(usage, client), now - config.window))
      ensures requests == |After(LogOf(usage, client), now - config.window)|
    {
      var windowStart := now - config.window;
      var entries := LogOf(usage, client);
      tokens, requests := 0, 0;
      for i := 0 to |entries|
        invariant tokens == Tokens(After(entries[..i], windowStart))
        invariant requests == |After(entries[..i], windowStart)|
      {
        assert entries[..i + 1][..i] == entries[..i];
        ghost var before := After(entries[..i], windowStart);
        if entries[i].timestamp > windowStart {
          assert (before + [entries[i]])[..|before|] == before;
          tokens := tokens + entries[i].tokens;
          requests := requests + 1;
        }
      }
      assert entries[..|entries|] == entries;
    }

    method ResetUsage(client: Client)
      modifies this
      ensures usage == Step(config, true, old(usage), Call(0, Op.ResetUsage(client))).0
    {
      usage := usage - {client};
    }

    method ResetAll()
      modifies this
      ensures usage == map[]
    {
      usage := map[];
    }
  }

  // ----- pruning loses nothing

  lemma {:induction false} AfterAppend(log: seq<Entry>, entry: Entry, start: int)
    ensures After(log + [entry], start)
            == if entry.timestamp > start then After(log, start) + [entry] else After(log, start)
  {
    assert (log + [entry])[..|log|] == log;
  }

  /** Filtering twice is filtering at the later instant. */
  lemma {:induction false} AfterAfter(log: seq<Entry>, early: int, late: int)
    requires early <= late
    ensures After(After(log, early), late) == After(log, late)
  {
    if log != [] {
      var n := |log| - 1;
      AfterAfter(log[..n], early, late);
      if log[n].timestamp > early {
        AfterAppend(After(log[..n], early), log[n], late);
      }
    }
  }

  /** The two logs cannot be told apart from `since` on. */
  ghost predicate SameFrom(kept: seq<Entry>, all: seq<Entry>, since: int) {
    forall start :: start >= since ==> After(kept, start) == After(all, start)
  }

  ghost predicate Agree(pruned: Usage, full: Usage, since: int) {
    forall client :: SameFrom(LogOf(pruned, client), LogOf(full, client), since)
  }

  lemma {:induction false} GrantKeepsSame(kept: seq<Entry>, all: seq<Entry>, since: int, grant: Entry, start: int)
    requires SameFrom(kept, all, since) && start >= since
    ensures SameFrom(After(kept, start) + [grant], all + [grant], start)
  {
    forall s | s >= start ensures After(After(kept, start) + [grant], s) == After(all + [grant], s) {
      AfterAppend(After(kept, start), grant, s);
      AfterAfter(kept, start, s);
      AfterAppend(all, grant, s);
    }
  }

  lemma {:induction false} StepAgrees(config: Config, pruned: Usage, full: Usage, since: int, call: Call)
    requires Agree(pruned, full, since) && call.now - config.window >= since
    ensures Step(config, true, pruned, call).1 == Step(config, false, full, call).1
    ensures Agree(Step(config, true, pruned, call).0, Step(config, false, full, call).0, call.now - config.window)
  {
    var start := call.now - config.window;
    var pruned', full' := Step(config, true, pruned, call).0, Step(config, false, full, call).0;
    if call.op.Allow? {
      var kept, all := LogOf(pruned, call.op.client), LogOf(full, call.op.client);
      assert SameFrom(kept, all, since);
      assert After(kept, start) == After(all, start);
      GrantKeepsSame(kept, all, since, Entry(call.op.tokens, call.now), start);
    }
    forall client ensures SameFrom(LogOf(pruned', client), LogOf(full', client), start) {
      assert SameFrom(LogOf(pruned, client), LogOf(full, client), since);
      SameLater(LogOf(pruned, client), LogOf(full, client), since, start);
    }
  }

  lemma SameLater(kept: seq<Entry>, all: seq<Entry>, since: int, start: int)
    requires SameFrom(kept, all, since) && start >= since
    ensures SameFrom(kept, all, start)
  {
  }

  /** Every decision, and every usage report from the last call on, is the one a limiter that never
      prunes its history would give. */
  lemma {:induction false} PruningIsInvisible(config: Config, calls: seq<Call>)
    requires ClockNeverGoesBack(calls)
    ensures Run(config, true, calls).1 == Run(config, false, calls).1
    ensures calls != [] ==>
              Agree(Run(config, true, calls).0, Run(config, false, calls).0, calls[|calls| - 1].now - config.window)
  {
    if calls != [] {
      var n := |calls| - 1;
      PruningIsInvisible(config, calls[..n]);
      var since := calls[if n == 0 then 0 else n - 1].now - config.window;
      StepAgrees(config, Run(config, true, calls[..n]).0, Run(config, false, calls[..n]).0, since, calls[n]);
    }
  }

  // ----- no window is ever overfull

  /** Each grant was a non-negative count that fitted into the window ending with it. */
  ghost predicate GrantsFit(config: Config, log: seq<Entry>) {
    log == []
    || var n := |log| - 1;
       GrantsFit(config, log[..n])
       && log[n].tokens >= 0
       && Decide(config, After(log[..n], log[n].timestamp - config.window), log[n].tokens) == Allowed
  }

  lemma {:induction false} RunGrantsFit(config: Config, calls: seq<Call>, client: Client)
    requires NoNegativeCounts(calls)
    ensures GrantsFit(config, LogOf(Run(config, false, calls).0, client))
  {
    if calls != [] {
      var n := |calls| - 1;
      RunGrantsFit(config, calls[..n], client);
      StepGrantsFit(config, Run(config, false, calls[..n]).0, calls[n], client);
    }
  }

  lemma StepGrantsFit(config: Config, usage: Usage, call: Call, client: Client)
    requires GrantsFit(config, LogOf(usage, client)) && (call.op.Allow? ==> call.op.tokens >= 0)
    ensures GrantsFit(config, LogOf(Step(config, false, usage, call).0, client))
  {
    var before, after := LogOf(usage, client), LogOf(Step(config, false, usage, call).0, client);
    if call.op.Allow? && call.op.client == client && after != before {
      var grant := Entry(call.op.tokens, call.now);
      assert after == before + [grant] && (before + [grant])[..|before|] == before;
    }
  }

  /** A window that ends earlier, or starts later, holds no more. */
  lemma {:induction false} WindowWithinAfter(config: Config, log: seq<Entry>, t: int, start: int)
    requires start <= t - config.window && GrantsFit(config, log)
    ensures 0 <= Tokens(InWindow(log, t, config.window)) <= Tokens(After(log, start))
    ensures |InWindow(log, t, config.window)| <= |After(log, start)|
  {
    if log != [] {
      var n := |log| - 1;
      WindowWithinAfter(config, log[..n], t, start);
      TokensAppend(InWindow(log[..n], t, config.window), log[n]);
      TokensAppend(After(log[..n], start), log[n]);
    }
  }

  lemma {:induction false} TokensAppend(log: seq<Entry>, entry: Entry)
    ensures Tokens(log + [entry]) == Tokens(log) + entry.tokens
  {
    assert (log + [entry])[..|log|] == log;
  }

  lemma {:induction false} WindowFits(config: Config, log: seq<Entry>, t: int)
    requires GrantsFit(config, log)
    ensures var granted := InWindow(log, t, config.window);
            granted == []
            || (Tokens(granted) <= config.tokensPerMinute && |granted| <= config.maxResponsesPerMinute)
  {
    if log != [] {
      var n := |log| - 1;
      var rest := log[..n];
      WindowFits(config, rest, t);
      if t - config.window < log[n].timestamp <= t {
        WindowWithinAfter(config, rest, t, log[n].timestamp - config.window);
        TokensAppend(InWindow(rest, t, config.window), log[n]);
      }
    }
  }

  /** For every client and every instant t, the grants of the pruning limiter since the client's last
      reset that fall in (t - window, t] stay within both limits. They are the log of the reference
      run, whose decisions are the pruning limiter's own. */
  lemma {:induction false} NoWindowOverfull(config: Config, calls: seq<Call>, client: Client, t: int)
    requires ClockNeverGoesBack(calls) && NoNegativeCounts(calls)
    ensures LogOf(Run(config, false, calls).0, client) == Granted(calls, Run(config, true, calls).1, client)
    ensures var granted := InWindow(Granted(calls, Run(config, true, calls).1, client), t, config.window);
            granted == []
            || (Tokens(granted) <= config.tokensPerMinute && |granted| <= config.maxResponsesPerMinute)
  {
    PruningIsInvisible(config, calls);
    LogIsGranted(config, calls, client);
    RunGrantsFit(config, calls, client);
    WindowFits(config, LogOf(Run(config, false, calls).0, client), t);
  }

  /** Read off the decisions alone: the entries allowed to a client since its last reset. */
  function Granted(calls: seq<Call>, decisions: seq<Option<Decision>>, client: Client): seq<Entry>
    requires |calls| == |decisions|
  {
    if calls == [] then []
    else
      var n := |calls| - 1;
      var before := Granted(calls[..n], decisions[..n], client);
      match calls[n].op
      case Allow(c, tokens) =>
        if c == client && decisions[n] == Some(Allowed) then before + [Entry(tokens, calls[n].now)] else before
      case ResetUsage(c) => if c == client then [] else before
      case ResetAll => []
  }

  lemma {:induction false} LogIsGranted(config: Config, calls: seq<Call>, client: Client)
    ensures |Run(config, false, calls).1| == |calls|
    ensures LogOf(Run(config, false, calls).0, client) == Granted(calls, Run(config, false, calls).1, client)
  {
    if calls != [] {
      var n := |calls| - 1;
      LogIsGranted(config, calls[..n], client);
      assert Run(config, false, calls).1[..n] == Run(config, false, calls[..n]).1;
    }
  }

  // ----- what decides a call

  lemma {:induction false} GrantedBefore(calls: seq<Call>, decisions: seq<Option<Decision>>, client: Client, now: int)
    requires |calls| == |decisions| && forall i :: 0 <= i < |calls| ==> calls[i].now <= now
    ensures forall i :: 0 <= i < |Granted(calls, decisions, client)| ==>
                          Granted(calls, decisions, client)[i].timestamp <= now
  {
    if calls != [] {
      GrantedBefore(calls[..|calls| - 1], decisions[..|calls| - 1], client, now);
    }
  }

  lemma {:induction false} AfterIsInWindow(log: seq<Entry>, t: int, window: int)
    requires forall i :: 0 <= i < |log| ==> log[i].timestamp <= t
    ensures After(log, t - window) == InWindow(log, t, window)
  {
    if log != [] {
      AfterIsInWindow(log[..|log| - 1], t, window);
    }
  }

  /** What a client was granted in the window that ends with its last call, read off the decisions. */
  function GrantedInWindow(config: Config, calls: seq<Call>, client: Client): seq<Entry>
    requires calls != []
  {
    var n := |calls| - 1;
    InWindow(Granted(calls[..n], Run(config, true, calls[..n]).1, client), calls[n].now, config.window)
  }

  /** The last decision of any run: a call is allowed exactly when the grants in its window and itself keep within
      the token limit and the request limit, and its own count within the size limit; otherwise the first limit
      that would be exceeded is the reason. */
  lemma {:induction false} DecisionIff(config: Config, calls: seq<Call>)
    requires ClockNeverGoesBack(calls) && calls != [] && calls[|calls| - 1].op.Allow?
    ensures var n := |calls| - 1;
            var decision, tokens := Run(config, true, calls).1[n], calls[n].op.tokens;
            var granted := GrantedInWindow(config, calls, calls[n].op.client);
            && (decision == Some(Allowed) <==>
                  && Tokens(granted) + tokens <= config.tokensPerMinute
                  && |granted| + 1 <= config.maxResponsesPerMinute
                  && tokens <= config.maxTokensPerResponse)
            && (decision == Some(TokenRateExceeded) <==> Tokens(granted) + tokens > config.tokensPerMinute)
            && (decision == Some(RequestRateExceeded) <==>
                  Tokens(granted) + tokens <= config.tokensPerMinute && |granted| + 1 > config.maxResponsesPerMinute)
            && (decision == Some(ResponseTooLarge) <==>
                  && Tokens(granted) + tokens <= config.tokensPerMinute
                  && |granted| + 1 <= config.maxResponsesPerMinute
                  && tokens > config.maxTokensPerResponse)
  {
    var n := |calls| - 1;
    var before, client := calls[..n], calls[n].op.client;
    PruningIsInvisible(config, calls);
    PruningIsInvisible(config, before);
    LogIsGranted(config, before, client);
    var log := LogOf(Run(config, false, before).0, client);
    GrantedBefore(before, Run(config, true, before).1, client, calls[n].now);
    AfterIsInWindow(log, calls[n].now, config.window);
  }

  /** No grant is larger than one response may be. */
  lemma {:induction false} GrantsWithinSize(config: Config, calls: seq<Call>, client: Client)
    requires ClockNeverGoesBack(calls)
    ensures forall i :: 0 <= i < |Granted(calls, Run(config, true, calls).1, client)| ==>
              Granted(calls, Run(config, true, calls).1, client)[i].tokens <= config.maxTokensPerResponse
  {
    if calls != [] {
      var n := |calls| - 1;
      GrantsWithinSize(config, calls[..n], client);
      assert Run(config, true, calls).1[..n] == Run(config, true, calls[..n]).1;
      if calls[n].op.Allow? {
        DecisionIff(config, calls);
      }
    }
  }

  /** A usage report counts exactly the grants in the window that ends with it. */
  lemma {:induction false} UsageIsGranted(config: Config, calls: seq<Call>, client: Client, now: int)
    requires ClockNeverGoesBack(calls) && forall i :: 0 <= i < |calls| ==> calls[i].now <= now
    ensures After(LogOf(Run(config, true, calls).0, client), now - config.window)
            == InWindow(Granted(calls, Run(config, true, calls).1, client), now, config.window)
  {
    PruningIsInvisible(config, calls);
    LogIsGranted(config, calls, client);
    var pruned, full := Run(config, true, calls).0, Run(config, false, calls).0;
    if calls != [] {
      assert SameFrom(LogOf(pruned, client), LogOf(full, client), calls[|calls| - 1].now - config.window);
    }
    GrantedBefore(calls, Run(config, true, calls).1, client, now);
    AfterIsInWindow(LogOf(full, client), now, config.window);
  }
}
