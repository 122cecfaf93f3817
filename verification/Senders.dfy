/** Several senders on one output: the read-dispatch-write loop and the goroutines that publish diagnostics. Each
    takes the write mutex, writes a header, writes a body, and gives the mutex back, and any other can run in
    between. The output accepts a bounded number of bytes; writes fail from there on. */
module Senders {
  import opened Common
  import opened Framing

  /** Where a sender is. It is `Written` behind its last write, whether that succeeded or not. */
  datatype Phase = Waiting | Locked | HeaderOut | Written | Done

  /** `sent` lists the bodies in the order in which their senders got the mutex. */
  datatype State = State(
    out: string, room: nat, holder: Option<nat>, bodies: seq<string>, phases: seq<Phase>, sent: seq<string>)

  datatype Step = Spawn(body: string) | Lock(i: nat) | PutHeader(i: nat) | PutBody(i: nat) | Unlock(i: nat)

  function Start(cap: nat): State {
    State("", cap, None, [], [], [])
  }

  /** Only Lock looks at the holder: that no two senders write at once is proved. */
  function Next(s: State, step: Step): Option<State> {
    if |s.phases| != |s.bodies| then None
    else
      match step
      case Spawn(body) => Some(s.(bodies := s.bodies + [body], phases := s.phases + [Waiting]))
      case Lock(i) =>
        if i < |s.phases| && s.phases[i].Waiting? && s.holder.None? then
          Some(s.(holder := Some(i), phases := s.phases[i := Locked], sent := s.sent + [s.bodies[i]]))
        else None
      case PutHeader(i) =>
        if i < |s.phases| && s.phases[i].Locked? then
          var header := Header(|s.bodies[i]|);
          var phase := if |header| <= s.room then HeaderOut else Written;
          Some(Put(s, header).(phases := s.phases[i := phase]))
        else None
      case PutBody(i) =>
        if i < |s.phases| && s.phases[i].HeaderOut? then
          Some(Put(s, s.bodies[i]).(phases := s.phases[i := Written]))
        else None
      case Unlock(i) =>
        if i < |s.phases| && s.phases[i].Written? then
          Some(s.(holder := None, phases := s.phases[i := Done]))
        else None
  }

  /** One write to the output. */
  function Put(s: State, bytes: string): State {
    s.(out := s.out + Cut(bytes, s.room), room := s.room - |Cut(bytes, s.room)|)
  }

  function Run(cap: nat, steps: seq<Step>): Option<State> {
    if steps == [] then Some(Start(cap))
    else
      match Run(cap, steps[..|steps| - 1])
      case None => None
      case Some(s) => Next(s, steps[|steps| - 1])
  }

  // ----- what every step keeps

  ghost predicate Inside(p: Phase) {
    p.Locked? || p.HeaderOut? || p.Written?
  }

  /** Exactly the holder of the mutex is between taking it and giving it back. */
  ghost predicate Exclusive(s: State) {
    && |s.phases| == |s.bodies|
    && (s.holder.Some? ==> s.holder.value < |s.phases|)
    && forall i :: 0 <= i < |s.phases| ==> (Inside(s.phases[i]) <==> s.holder == Some(i))
  }

  /** The bodies of the senders that have started. */
  function Started(bodies: seq<string>, phases: seq<Phase>): multiset<string>
    requires |phases| == |bodies|
  {
    if bodies == [] then multiset{}
    else
      var k := |bodies| - 1;
      if phases[k].Waiting? then Started(bodies[..k], phases[..k])
      else Started(bodies[..k], phases[..k]) + multiset{bodies[k]}
  }

  /** The list holds the body of every started sender once, that of the holder last. */
  ghost predicate Listed(s: State) {
    && Exclusive(s)
    && multiset(s.sent) == Started(s.bodies, s.phases)
    && (s.holder.Some? ==> s.sent != [] && s.sent[|s.sent| - 1] == s.bodies[s.holder.value])
  }

  /** The frames of all senders that are through. */
  function Before(s: State): string
    requires s.holder.Some? ==> s.sent != []
  {
    Frames(if s.holder.None? then s.sent else s.sent[..|s.sent| - 1])
  }

  /** How much of a frame is written in each phase. */
  function Begun(header: string, body: string, p: Phase): string {
    match p
    case HeaderOut => header
    case Written => header + body
    case _ => ""
  }

  /** What has been written, or would have been on an unbounded output: whole frames, and of the holder's frame
      what its phase says. */
  ghost function Content(s: State): string
    requires Listed(s)
  {
    if s.holder.None? then Before(s)
    else
      var body := s.bodies[s.holder.value];
      Before(s) + Begun(Header(|body|), body, s.phases[s.holder.value])
  }

  ghost predicate Inv(s: State, cap: nat) {
    && Listed(s)
    && s.out == Cut(Content(s), cap) && s.room == cap - |s.out|
  }

  // ----- cutting

  /** Writing more is cutting later. */
  lemma CutOn(content: string, bytes: string, cap: nat)
    ensures Cut(content, cap) + Cut(bytes, cap - |Cut(content, cap)|) == Cut(content + bytes, cap)
    ensures |bytes| > cap - |Cut(content, cap)| ==> |content + bytes| > cap
  {
    CutTwice(content, bytes, cap);
  }

  lemma CutSame(content: string, more: string, cap: nat)
    requires |content| > cap
    ensures Cut(content + more, cap) == Cut(content, cap)
  {
  }

  /** The header goes out, or is cut and the sender gives up. */
  lemma HeaderText(before: string, header: string, body: string, cap: nat)
    ensures var out := Cut(before + Begun(header, body, Locked), cap);
            var phase := if |header| <= cap - |out| then HeaderOut else Written;
            out + Cut(header, cap - |out|) == Cut(before + Begun(header, body, phase), cap)
  {
    assert before + "" == before;
    CutOn(before, header, cap);
    Associative(before, header, body);
    if |header| > cap - |Cut(before, cap)| {
      CutSame(before + header, body, cap);
    }
  }

  lemma BodyText(before: string, header: string, body: string, cap: nat)
    ensures var out := Cut(before + Begun(header, body, HeaderOut), cap);
            out + Cut(body, cap - |out|) == Cut(before + Begun(header, body, Written), cap)
  {
    CutOn(before + header, body, cap);
    Associative(before, header, body);
  }

  // ----- the steps

  lemma {:induction false} StartedUpdate(bodies: seq<string>, phases: seq<Phase>, i: nat, p: Phase)
    requires |phases| == |bodies| && i < |phases| && !p.Waiting?
    ensures Started(bodies, phases[i := p])
            == Started(bodies, phases) + if phases[i].Waiting? then multiset{bodies[i]} else multiset{}
  {
    var k := |bodies| - 1;
    if i < k {
      StartedUpdate(bodies[..k], phases[..k], i, p);
      assert phases[i := p][..k] == phases[..k][i := p];
    } else {
      assert phases[i := p][..k] == phases[..k];
    }
  }

  lemma SpawnKeeps(s: State, cap: nat, body: string)
    requires Inv(s, cap)
    ensures Inv(Next(s, Spawn(body)).value, cap)
  {
    assert (s.bodies + [body])[..|s.bodies|] == s.bodies && (s.phases + [Waiting])[..|s.phases|] == s.phases;
  }

  lemma LockKeeps(s: State, cap: nat, i: nat)
    requires Inv(s, cap) && Next(s, Lock(i)).Some?
    ensures Inv(Next(s, Lock(i)).value, cap)
  {
    StartedUpdate(s.bodies, s.phases, i, Locked);
    assert (s.sent + [s.bodies[i]])[..|s.sent|] == s.sent;
    assert Before(s) + "" == Before(s);
  }

  /** The holder goes on to another phase inside. */
  lemma PhaseKeeps(s: State, t: State, i: nat)
    requires Listed(s) && i < |s.phases| && Inside(s.phases[i])
    requires t.bodies == s.bodies && t.sent == s.sent && t.holder == s.holder && |t.phases| == |s.phases|
    requires Inside(t.phases[i]) && t.phases == s.phases[i := t.phases[i]]
    ensures Listed(t) && s.holder == Some(i)
  {
    StartedUpdate(s.bodies, s.phases, i, t.phases[i]);
  }

  lemma PutHeaderKeeps(s: State, cap: nat, i: nat)
    requires Inv(s, cap) && Next(s, PutHeader(i)).Some?
    ensures Inv(Next(s, PutHeader(i)).value, cap)
  {
    PhaseKeeps(s, Next(s, PutHeader(i)).value, i);
    HeaderText(Before(s), Header(|s.bodies[i]|), s.bodies[i], cap);
  }

  lemma PutBodyKeeps(s: State, cap: nat, i: nat)
    requires Inv(s, cap) && Next(s, PutBody(i)).Some?
    ensures Inv(Next(s, PutBody(i)).value, cap)
  {
    PhaseKeeps(s, Next(s, PutBody(i)).value, i);
    BodyText(Before(s), Header(|s.bodies[i]|), s.bodies[i], cap);
  }

  lemma UnlockKeeps(s: State, cap: nat, i: nat)
    requires Inv(s, cap) && Next(s, Unlock(i)).Some?
    ensures Inv(Next(s, Unlock(i)).value, cap)
  {
    UnlockListed(s, i);
    LastFrame(s.sent, s.bodies[i]);
  }

  lemma UnlockListed(s: State, i: nat)
    requires Listed(s) && Next(s, Unlock(i)).Some?
    ensures Listed(Next(s, Unlock(i)).value) && s.holder == Some(i)
  {
    StartedUpdate(s.bodies, s.phases, i, Done);
    assert Inside(s.phases[i]);
  }

  lemma LastFrame(sent: seq<string>, body: string)
    requires sent != [] && sent[|sent| - 1] == body
    ensures Frames(sent[..|sent| - 1]) + (Header(|body|) + body) == Frames(sent)
  {
    assert Frame(body) == Header(|body|) + body;
  }

  lemma {:induction false} RunKeeps(cap: nat, steps: seq<Step>)
    requires Run(cap, steps).Some?
    ensures Inv(Run(cap, steps).value, cap)
  {
    if steps != [] {
      var k := |steps| - 1;
      RunKeeps(cap, steps[..k]);
      var s := Run(cap, steps[..k]).value;
      match steps[k] {
        case Spawn(body) => SpawnKeeps(s, cap, body);
        case Lock(i) => LockKeeps(s, cap, i);
        case PutHeader(i) => PutHeaderKeeps(s, cap, i);
        case PutBody(i) => PutBodyKeeps(s, cap, i);
        case Unlock(i) => UnlockKeeps(s, cap, i);
      }
    }
  }

  // ----- what a reader gets

  /** Under every interleaving frames never mix: the output is whole frames in the order of the mutex and at most
      one begun frame behind them, cut where the output stops accepting. */
  lemma {:induction false} SendersNeverMix(cap: nat, steps: seq<Step>)
    requires Run(cap, steps).Some?
    ensures var s := Run(cap, steps).value;
            && |s.phases| == |s.bodies|
            && match s.holder
               case None => s.out == Cut(Frames(s.sent), cap)
               case Some(h) =>
                 && h < |s.bodies| && s.sent != [] && s.sent[|s.sent| - 1] == s.bodies[h]
                 && var begun := Begun(Header(|s.bodies[h]|), s.bodies[h], s.phases[h]);
                    begun <= Frame(s.bodies[h]) && s.out == Cut(Frames(s.sent[..|s.sent| - 1]) + begun, cap)
  {
    RunKeeps(cap, steps);
  }

  /** Once no sender holds the mutex and nothing was cut, a reader gets back exactly the bodies of the senders
      that have started, each once, in the order of the mutex, and then EOF. */
  lemma {:induction false} SendersReadBack(cap: nat, steps: seq<Step>)
    requires Run(cap, steps).Some?
    ensures var s := Run(cap, steps).value;
            && |s.phases| == |s.bodies| && multiset(s.sent) == Started(s.bodies, s.phases)
            && (s.holder.None? && |Frames(s.sent)| <= cap && Sendable(s.sent) ==> ReadAll(s.out) == (s.sent, Eof))
  {
    RunKeeps(cap, steps);
    var s := Run(cap, steps).value;
    if s.holder.None? && |Frames(s.sent)| <= cap && Sendable(s.sent) {
      assert s.out == Frames(s.sent);
      ReadsBack(s.out, s.sent);
    }
  }

  lemma ReadsBack(out: string, sent: seq<string>)
    requires Sendable(sent) && out == Frames(sent)
    ensures ReadAll(out) == (sent, Eof)
  {
    StreamRoundTrip(sent);
  }

  /** No sender waits for ever on a free mutex, and a holder can always go on. */
  lemma {:induction false} SendersNeverStuck(s: State, cap: nat, i: nat) returns (step: Step)
    requires Inv(s, cap) && i < |s.phases| && !s.phases[i].Done?
    ensures Next(s, step).Some? && !step.Spawn?
  {
    if s.holder.None? {
      assert s.phases[i].Waiting?;
      step := Lock(i);
    } else {
      var h := s.holder.value;
      assert Inside(s.phases[h]);
      step := match s.phases[h]
        case Locked => PutHeader(h)
        case HeaderOut => PutBody(h)
        case _ => Unlock(h);
    }
  }
}
