/** Sliding ROT13, the cap on repeated characters, and the list of variants without repeats. */
module Variants {
  import opened Common
  import opened Normalize

  // ----- ROT13

  predicate IsAsciiLetter(c: char) {
    'a' <= c <= 'z' || 'A' <= c <= 'Z'
  }

  function Rot(c: char): char {
    if 'a' <= c <= 'z' then RotFrom('a', c)
    else if 'A' <= c <= 'Z' then RotFrom('A', c)
    else c
  }

  function RotFrom(first: char, c: char): (r: char)
    requires first == 'a' || first == 'A'
    requires 0 <= c as int - first as int < 26
    ensures r as int == if c as int - first as int < 13 then c as int + 13 else c as int - 13
  {
    ((c as int - first as int + 13) % 26 + first as int) as char
  }

  /** ROT13 moves a letter by 13 of its 26 places, within its case. */
  lemma RotIs(c: char)
    ensures 'a' <= c <= 'z' ==> 'a' <= Rot(c) <= 'z' && (Rot(c) as int - c as int) % 26 == 13
    ensures 'A' <= c <= 'Z' ==> 'A' <= Rot(c) <= 'Z' && (Rot(c) as int - c as int) % 26 == 13
    ensures !IsAsciiLetter(c) ==> Rot(c) == c
  {
  }

  lemma RotTwice(c: char)
    ensures Rot(Rot(c)) == c && IsAsciiLetter(Rot(c)) == IsAsciiLetter(c)
    ensures Rot(c) == c <==> !IsAsciiLetter(c)
  {
  }

  /** `s` with the letters from `a` up to `b` rotated. */
  function RotRange(s: string, a: nat, b: nat): (r: string)
    ensures |r| == |s| && forall i :: 0 <= i < |s| ==> r[i] == if a <= i < b then Rot(s[i]) else s[i]
  {
    seq(|s|, i requires 0 <= i < |s| => if a <= i < b then Rot(s[i]) else s[i])
  }

  lemma RotRangeTwice(s: string, a: nat, b: nat)
    ensures RotRange(RotRange(s, a, b), a, b) == s
  {
    forall i | 0 <= i < |s| ensures RotRange(RotRange(s, a, b), a, b)[i] == s[i] {
      RotTwice(s[i]);
    }
  }

  lemma RotRangeChanges(s: string, a: nat, b: nat)
    ensures RotRange(s, a, b) != s <==> exists i :: a <= i < b && i < |s| && IsAsciiLetter(s[i])
  {
    if i :| a <= i < b && i < |s| && IsAsciiLetter(s[i]) {
      RotTwice(s[i]);
      assert RotRange(s, a, b)[i] != s[i];
    } else {
      forall i | 0 <= i < |s| ensures RotRange(s, a, b)[i] == s[i] {
        RotTwice(s[i]);
      }
    }
  }

  method NormalizeROT13(input: string) returns (r: string)
    ensures r == RotRange(input, 0, |input|)
  {
    r := "";
    for i := 0 to |input|
      invariant |r| == i && forall j :: 0 <= j < i ==> r[j] == Rot(input[j])
    {
      r := r + [Rot(input[i])];
    }
  }

  // ----- sliding ROT13

  datatype Run = Run(start: nat, end: nat)

  /** A run of at least four letters that no letter extends. */
  ghost predicate IsLongRun(u: Unicode, s: string, r: Run) {
    && r.start + 4 <= r.end <= |s|
    && (forall i :: r.start <= i < r.end ==> u.isLetter(s[i]))
    && (r.start > 0 ==> !u.isLetter(s[r.start - 1]))
    && (r.end < |s| ==> !u.isLetter(s[r.end]))
  }

  /** Where the letters that end just before `n` begin. */
  function RunStart(u: Unicode, s: string, n: nat): (a: nat)
    requires n <= |s|
    ensures a <= n && forall i :: a <= i < n ==> u.isLetter(s[i])
    ensures a > 0 ==> !u.isLetter(s[a - 1])
  {
    if n > 0 && u.isLetter(s[n - 1]) then RunStart(u, s, n - 1) else n
  }

  predicate RunEndsAt(u: Unicode, s: string, n: nat)
    requires n <= |s|
  {
    n - RunStart(u, s, n) >= 4 && (n < |s| ==> !u.isLetter(s[n]))
  }

  /** The long runs that end at or before `n`, from left to right. */
  function RunsUpTo(u: Unicode, s: string, n: nat): seq<Run>
    requires n <= |s|
  {
    if n == 0 then []
    else if RunEndsAt(u, s, n) then RunsUpTo(u, s, n - 1) + [Run(RunStart(u, s, n), n)]
    else RunsUpTo(u, s, n - 1)
  }

  lemma {:induction false} RunsAreLongRuns(u: Unicode, s: string, n: nat)
    requires n <= |s|
    ensures forall r :: r in RunsUpTo(u, s, n) <==> r.end <= n && IsLongRun(u, s, r)
  {
    if n > 0 {
      RunsAreLongRuns(u, s, n - 1);
      forall r: Run | r.end == n
        ensures IsLongRun(u, s, r) <==> RunEndsAt(u, s, n) && r.start == RunStart(u, s, n)
      {
        EndGivesStart(u, s, r);
      }
    }
  }

  lemma {:induction false} RunsAreOrdered(u: Unicode, s: string, n: nat)
    requires n <= |s|
    ensures Ordered(RunsUpTo(u, s, n))
  {
    if n > 0 {
      RunsAreOrdered(u, s, n - 1);
      RunsAreLongRuns(u, s, n - 1);
      forall r | r in RunsUpTo(u, s, n - 1) && RunEndsAt(u, s, n)
        ensures r.end < RunStart(u, s, n)
      {
        assert IsLongRun(u, s, r) && !u.isLetter(s[r.end]);
      }
    }
  }

  lemma EndGivesStart(u: Unicode, s: string, r: Run)
    requires 0 < r.end <= |s|
    ensures IsLongRun(u, s, r) <==> RunEndsAt(u, s, r.end) && r.start == RunStart(u, s, r.end)
  {
    var a := RunStart(u, s, r.end);
    assert a < r.start <= r.end ==> u.isLetter(s[r.start - 1]);
  }

  /** The texts with one run rotated, each once. A text that decodes without loss (`valid`) is not among them;
      of one that does not, every rotation differs from the original bytes. */
  function Rewritten(s: string, valid: bool, runs: seq<Run>): seq<string> {
    if runs == [] then []
    else
      var n := |runs| - 1;
      var before, v := Rewritten(s, valid, runs[..n]), RotRange(s, runs[n].start, runs[n].end);
      if (valid && v == s) || v in before then before else before + [v]
  }

  function AtMostFive(t: seq<string>): seq<string> {
    if |t| <= 5 then t else t[..5]
  }

  function SlidingVariants(u: Unicode, s: string, valid: bool): seq<string> {
    AtMostFive(Rewritten(s, valid, RunsUpTo(u, s, |s|)))
  }

  method LetterRuns(u: Unicode, runes: string) returns (runs: seq<Run>)
    ensures runs == RunsUpTo(u, runes, |runes|)
  {
    runs := [];
    var i := 0;
    while i < |runes|
      invariant 0 <= i <= |runes| && runs == RunsUpTo(u, runes, i)
      invariant 0 < i < |runes| ==> !u.isLetter(runes[i]) || !u.isLetter(runes[i - 1])
    {
      if u.isLetter(runes[i]) {
        var start := i;
        while i < |runes| && u.isLetter(runes[i])
          invariant start <= i <= |runes| && RunStart(u, runes, i) == start
          invariant runs == RunsUpTo(u, runes, if i == start then start else i - 1)
          invariant i == start ==> i < |runes| && u.isLetter(runes[i])
        {
          i := i + 1;
        }
        if i - start >= 4 {
          runs := runs + [Run(start, i)];
        }
      } else {
        i := i + 1;
      }
    }
  }

  method RotateRun(input: string, r: Run) returns (b: string)
    ensures b == RotRange(input, r.start, r.end)
  {
    b := "";
    for j := 0 to |input|
      invariant |b| == j && forall i :: 0 <= i < j ==> b[i] == RotRange(input, r.start, r.end)[i]
    {
      if r.start <= j < r.end {
        b := b + [Rot(input[j])];
      } else {
        b := b + [input[j]];
      }
    }
  }

  /** `input` is the decoded text, and `valid` says whether encoding it gives the original bytes again. */
  method NormalizeSlidingROT13(u: Unicode, input: string, valid: bool) returns (variants: seq<string>)
    ensures variants == SlidingVariants(u, input, valid)
  {
    var runs := LetterRuns(u, input);
    variants := [];
    if |runs| == 0 {
      return;
    }
    var seen: set<string> := {};
    assert runs[..0] == [];
    for k := 0 to |runs|
      invariant variants == Rewritten(input, valid, runs[..k]) && |variants| < 5
      invariant forall v :: v in seen <==> v in variants
    {
      var b := RotateRun(input, runs[k]);
      assert runs[..k + 1][..k] == runs[..k];
      if (!valid || b != input) && b !in seen {
        seen := seen + {b};
        variants := variants + [b];
        if |variants| >= 5 {
          RewrittenPrefix(input, valid, runs, k + 1);
          return;
        }
      }
    }
    assert runs[..|runs|] == runs;
  }

  lemma {:induction false} RewrittenFrom(s: string, valid: bool, runs: seq<Run>)
    ensures forall v :: v in Rewritten(s, valid, runs) <==>
                        exists r :: r in runs && v == RotRange(s, r.start, r.end) && (valid ==> v != s)
  {
    if runs != [] {
      var n := |runs| - 1;
      RewrittenFrom(s, valid, runs[..n]);
      assert runs == runs[..n] + [runs[n]];
    }
  }

  lemma {:induction false} RewrittenPrefix(s: string, valid: bool, runs: seq<Run>, k: nat)
    requires k <= |runs|
    ensures Rewritten(s, valid, runs[..k]) <= Rewritten(s, valid, runs)
    ensures |Rewritten(s, valid, runs[..k])| == 5 ==>
              AtMostFive(Rewritten(s, valid, runs)) == Rewritten(s, valid, runs[..k])
  {
    if k < |runs| {
      RewrittenPrefix(s, valid, runs[..|runs| - 1], k);
      assert runs[..|runs| - 1][..k] == runs[..k];
    } else {
      assert runs[..k] == runs;
    }
  }

  lemma DisjointRunsDiffer(s: string, q: Run, r: Run)
    requires q.end <= r.start
    ensures RotRange(s, q.start, q.end) == RotRange(s, r.start, r.end) ==> RotRange(s, q.start, q.end) == s
  {
    var x, y := RotRange(s, q.start, q.end), RotRange(s, r.start, r.end);
    if x == y {
      forall i | 0 <= i < |s| ensures x[i] == s[i] {
        assert x[i] == y[i];
      }
    }
  }

  ghost predicate Ordered(runs: seq<Run>) {
    forall i, j :: 0 <= i < j < |runs| ==> runs[i].end < runs[j].start
  }

  /** The guard against repeats only ever meets the decoded text itself, and so never acts on a text that
      decodes without loss. */
  lemma OnlyInputRepeats(s: string, valid: bool, runs: seq<Run>, k: nat)
    requires Ordered(runs) && k < |runs|
    ensures var v := RotRange(s, runs[k].start, runs[k].end); v != s ==> v !in Rewritten(s, valid, runs[..k])
  {
    RewrittenFrom(s, valid, runs[..k]);
    forall q | q in runs[..k]
      ensures RotRange(s, q.start, q.end) == RotRange(s, runs[k].start, runs[k].end)
              ==> RotRange(s, q.start, q.end) == s
    {
      DisjointRunsDiffer(s, q, runs[k]);
    }
  }

  ghost predicate Distinct(t: seq<string>) {
    forall i, j :: 0 <= i < j < |t| ==> t[i] != t[j]
  }

  lemma {:induction false} RewrittenDistinct(s: string, valid: bool, runs: seq<Run>)
    ensures Distinct(Rewritten(s, valid, runs))
  {
    if runs != [] {
      RewrittenDistinct(s, valid, runs[..|runs| - 1]);
    }
  }

  predicate HasAsciiLetter(s: string, r: Run) {
    exists i :: r.start <= i < r.end && i < |s| && IsAsciiLetter(s[i])
  }

  /** At most five variants, all different; each rotates one maximal run of four letters or more, and when
      there are fewer than five, every such run has its variant. Of a text that decodes without loss the
      input is not a variant, and the runs are those with an ASCII letter. */
  lemma {:induction false} SlidingIsSound(u: Unicode, s: string, valid: bool)
    ensures var t := SlidingVariants(u, s, valid);
            && |t| <= 5 && (valid ==> s !in t)
            && Distinct(t)
            && (forall v :: v in t ==> exists r :: IsLongRun(u, s, r) && v == RotRange(s, r.start, r.end)
                                                   && (valid ==> HasAsciiLetter(s, r)))
            && (|t| < 5 ==> forall r :: IsLongRun(u, s, r) && (valid ==> HasAsciiLetter(s, r))
                              ==> RotRange(s, r.start, r.end) in t)
  {
    var runs := RunsUpTo(u, s, |s|);
    RunsAreLongRuns(u, s, |s|);
    RewrittenFrom(s, valid, runs);
    RewrittenDistinct(s, valid, runs);
    var all, t := Rewritten(s, valid, runs), SlidingVariants(u, s, valid);
    assert forall v :: v in t ==> v in all;
    forall r: Run ensures RotRange(s, r.start, r.end) != s <==> HasAsciiLetter(s, r) {
      RotRangeChanges(s, r.start, r.end);
    }
  }

  ghost predicate LeftOf(s: string, runs: seq<Run>, v: string, w: string) {
    exists q, r :: q in runs && r in runs && q.end < r.start
                   && v == RotRange(s, q.start, q.end) && w == RotRange(s, r.start, r.end)
  }

  ghost predicate InOrder(s: string, runs: seq<Run>, t: seq<string>) {
    forall i, j :: 0 <= i < j < |t| ==> LeftOf(s, runs, t[i], t[j])
  }

  lemma LeftOfMore(s: string, runs: seq<Run>, n: nat, v: string, w: string)
    requires n <= |runs| && LeftOf(s, runs[..n], v, w)
    ensures LeftOf(s, runs, v, w)
  {
    var q, r :| q in runs[..n] && r in runs[..n] && q.end < r.start
                && v == RotRange(s, q.start, q.end) && w == RotRange(s, r.start, r.end);
    assert q in runs && r in runs;
  }

  /** The last run is to the right of all before it. */
  lemma LastIsRight(s: string, valid: bool, runs: seq<Run>, n: nat, v: string)
    requires Ordered(runs) && n < |runs| && v in Rewritten(s, valid, runs[..n])
    ensures LeftOf(s, runs, v, RotRange(s, runs[n].start, runs[n].end))
  {
    RewrittenFrom(s, valid, runs[..n]);
    var q :| q in runs[..n] && v == RotRange(s, q.start, q.end);
    assert q in runs && runs[n] in runs && q.end < runs[n].start;
  }

  lemma {:induction false} RewrittenInOrder(s: string, valid: bool, runs: seq<Run>)
    requires Ordered(runs)
    ensures InOrder(s, runs, Rewritten(s, valid, runs))
  {
    if runs != [] {
      var n := |runs| - 1;
      var before, t := Rewritten(s, valid, runs[..n]), Rewritten(s, valid, runs);
      RewrittenInOrder(s, valid, runs[..n]);
      assert before <= t && |t| <= |before| + 1;
      forall i, j | 0 <= i < j < |t| ensures LeftOf(s, runs, t[i], t[j]) {
        assert t[i] == before[i];
        if j < |before| {
          LeftOfMore(s, runs, n, before[i], before[j]);
        } else {
          LastIsRight(s, valid, runs, n, before[i]);
        }
      }
    }
  }

  /** The variants come in the order of their runs, and a run without one lies to the right of five that have. */
  lemma {:induction false} SlidingInOrder(u: Unicode, s: string, valid: bool)
    ensures var t, runs := SlidingVariants(u, s, valid), RunsUpTo(u, s, |s|);
            && InOrder(s, runs, t)
            && (forall r, v :: IsLongRun(u, s, r) && (valid ==> HasAsciiLetter(s, r))
                               && RotRange(s, r.start, r.end) !in t && v in t ==>
                                 LeftOf(s, runs, v, RotRange(s, r.start, r.end)))
  {
    var runs, t := RunsUpTo(u, s, |s|), SlidingVariants(u, s, valid);
    RunsAreLongRuns(u, s, |s|);
    RunsAreOrdered(u, s, |s|);
    RewrittenInOrder(s, valid, runs);
    forall r, v | IsLongRun(u, s, r) && (valid ==> HasAsciiLetter(s, r)) && RotRange(s, r.start, r.end) !in t && v in t
      ensures LeftOf(s, runs, v, RotRange(s, r.start, r.end))
    {
      assert r in runs;
      var k: nat :| k < |runs| && runs[k] == r;
      RotRangeChanges(s, r.start, r.end);
      FiveBefore(s, valid, runs, k, v);
    }
  }

  lemma FiveBefore(s: string, valid: bool, runs: seq<Run>, k: nat, v: string)
    requires Ordered(runs) && k < |runs|
    requires valid ==> RotRange(s, runs[k].start, runs[k].end) != s
    requires RotRange(s, runs[k].start, runs[k].end) !in AtMostFive(Rewritten(s, valid, runs))
    requires v in AtMostFive(Rewritten(s, valid, runs))
    ensures LeftOf(s, runs, v, RotRange(s, runs[k].start, runs[k].end))
  {
    var all, before := Rewritten(s, valid, runs), Rewritten(s, valid, runs[..k]);
    RewrittenPrefix(s, valid, runs, k);
    if |before| < 5 {
      RunHasVariant(s, valid, runs, k);
    } else {
      assert AtMostFive(all) == before[..5];
      assert v in before;
      LastIsRight(s, valid, runs, k, v);
    }
  }

  lemma RunHasVariant(s: string, valid: bool, runs: seq<Run>, k: nat)
    requires k < |runs| && |Rewritten(s, valid, runs[..k])| < 5
    requires valid ==> RotRange(s, runs[k].start, runs[k].end) != s
    ensures RotRange(s, runs[k].start, runs[k].end) in AtMostFive(Rewritten(s, valid, runs))
  {
    var upTo := Rewritten(s, valid, runs[..k + 1]);
    RewrittenPrefix(s, valid, runs, k + 1);
    assert runs[..k + 1][..k] == runs[..k];
    var v := RotRange(s, runs[k].start, runs[k].end);
    assert v in upTo && |upTo| <= 5;
    var i :| 0 <= i < |upTo| && upTo[i] == v;
    assert Rewritten(s, valid, runs)[i] == v;
  }

  /** A variant's run is still a maximal run of the variant, and rotating it again restores the input. */
  lemma SlidingUndone(u: Unicode, s: string, r: Run)
    requires Lawful(u) && IsLongRun(u, s, r)
    ensures var v := RotRange(s, r.start, r.end); IsLongRun(u, v, r) && RotRange(v, r.start, r.end) == s
  {
    RotRangeTwice(s, r.start, r.end);
    var v := RotRange(s, r.start, r.end);
    forall i | r.start <= i < r.end ensures u.isLetter(v[i]) {
      assert u.isLetter(s[i]);
      RotTwice(s[i]);
    }
  }

  // ----- repeated characters

  /** How many equal characters the text ends in. */
  function EndCount(s: string): (k: nat)
    ensures k > 0 <==> s != ""
  {
    if s == "" then 0
    else if |s| > 1 && s[|s| - 1] == s[|s| - 2] then EndCount(s[..|s| - 1]) + 1
    else 1
  }

  function Capped(s: string): string {
    if s == "" then ""
    else if EndCount(s) <= 2 then Capped(s[..|s| - 1]) + [s[|s| - 1]]
    else Capped(s[..|s| - 1])
  }

  method NormalizeRepeatingChars(input: string) returns (r: string)
    ensures r == Capped(input)
  {
    if |input| < 3 {
      CapsNoShortText(input);
      return input;
    }
    r := "";
    var count := 1;
    for i := 0 to |input|
      invariant r == Capped(input[..i]) && count == if i == 0 then 1 else EndCount(input[..i])
    {
      assert input[..i + 1][..i] == input[..i];
      if i > 0 && input[i] == input[i - 1] {
        count := count + 1;
      } else {
        count := 1;
      }
      if count <= 2 {
        r := r + [input[i]];
      }
    }
    assert input[..|input|] == input;
  }

  lemma CapsNoShortText(s: string)
    requires |s| < 3
    ensures Capped(s) == s
  {
    if |s| > 0 {
      CappedAppended("", s[0]);
      EndAppended("", s[0]);
      if |s| > 1 {
        CappedAppended([s[0]], s[1]);
        EndAppended([s[0]], s[1]);
        assert s == [s[0], s[1]];
      } else {
        assert s == [s[0]];
      }
    }
  }

  /** The run-length form of a text. */
  datatype Repeat = Repeat(letter: char, times: nat)

  function Repeats(s: string): seq<Repeat> {
    if s == "" then []
    else Longer(Repeats(s[..|s| - 1]), s[|s| - 1])
  }

  function Longer(t: seq<Repeat>, c: char): seq<Repeat> {
    if t != [] && t[|t| - 1].letter == c then t[..|t| - 1] + [Repeat(c, t[|t| - 1].times + 1)]
    else t + [Repeat(c, 1)]
  }

  function Times(c: char, k: nat): string {
    if k == 0 then "" else Times(c, k - 1) + [c]
  }

  function Spelled(t: seq<Repeat>): string {
    if t == [] then "" else Spelled(t[..|t| - 1]) + Times(t[|t| - 1].letter, t[|t| - 1].times)
  }

  /** The run-length form determines the text. */
  lemma {:induction false} SpelledBack(s: string)
    ensures Spelled(Repeats(s)) == s
  {
    if s != "" {
      var p, c := s[..|s| - 1], s[|s| - 1];
      SpelledBack(p);
      SpelledNext(p, c);
      assert p + [c] == s;
    }
  }

  lemma SpelledNext(p: string, c: char)
    requires Spelled(Repeats(p)) == p
    ensures Spelled(Repeats(p + [c])) == p + [c]
  {
    RepeatsAppended(p, c);
    SpelledLonger(Repeats(p), c);
  }

  lemma SpelledLonger(t: seq<Repeat>, c: char)
    ensures Spelled(Longer(t, c)) == Spelled(t) + [c]
  {
    var r := Longer(t, c);
    if t != [] && t[|t| - 1].letter == c {
      assert r[..|r| - 1] == t[..|t| - 1];
    } else {
      assert r[..|r| - 1] == t;
      assert Times(c, 1) == Times(c, 0) + [c] == [c];
    }
  }

  function AtMostTwice(t: seq<Repeat>): (r: seq<Repeat>)
    ensures |r| == |t| && forall i :: 0 <= i < |t| ==> r[i] == Repeat(t[i].letter, Min(t[i].times, 2))
  {
    seq(|t|, i requires 0 <= i < |t| => Repeat(t[i].letter, Min(t[i].times, 2)))
  }

  /** Capping keeps the runs in order and cuts each to length two at most. */
  lemma {:induction false} CappedRepeats(s: string)
    ensures Repeats(Capped(s)) == AtMostTwice(Repeats(s))
  {
    EveryCapAgrees(s);
  }

  ghost predicate CapAgrees(s: string) {
    && Repeats(Capped(s)) == AtMostTwice(Repeats(s))
    && (s != "" ==> EndsWith(Repeats(s), s[|s| - 1], EndCount(s)))
  }

  predicate EndsWith(t: seq<Repeat>, c: char, k: nat) {
    t != [] && t[|t| - 1] == Repeat(c, k)
  }

  lemma {:induction false} EveryCapAgrees(s: string)
    ensures CapAgrees(s)
  {
    if s != "" {
      EveryCapAgrees(s[..|s| - 1]);
      CapStep(s[..|s| - 1], s[|s| - 1]);
      assert s[..|s| - 1] + [s[|s| - 1]] == s;
    }
  }

  lemma CapStep(p: string, c: char)
    requires CapAgrees(p)
    ensures CapAgrees(p + [c])
  {
    RepeatsAppended(p, c);
    RepeatsAppended(Capped(p), c);
    CappedAppended(p, c);
    EndAppended(p, c);
    CapOneMore(Repeats(p), EndCount(p), c);
  }

  lemma CappedAppended(p: string, c: char)
    ensures Capped(p + [c]) == if EndCount(p + [c]) <= 2 then Capped(p) + [c] else Capped(p)
  {
    assert (p + [c])[..|p|] == p;
  }

  lemma EndAppended(p: string, c: char)
    ensures EndCount(p + [c]) == if p != "" && p[|p| - 1] == c then EndCount(p) + 1 else 1
  {
    assert (p + [c])[..|p|] == p;
  }

  lemma RepeatsAppended(s: string, c: char)
    ensures Repeats(s + [c]) == Longer(Repeats(s), c)
  {
    assert (s + [c])[..|s|] == s;
  }

  lemma CapOneMore(t: seq<Repeat>, k: nat, c: char)
    requires t != [] ==> k > 0 && t[|t| - 1].times == k
    ensures var more := t != [] && t[|t| - 1].letter == c && k >= 2;
            AtMostTwice(Longer(t, c)) == if more then AtMostTwice(t) else Longer(AtMostTwice(t), c)
  {
  }

  /** A second capping changes nothing. */
  lemma {:induction false} CappedIdempotent(s: string)
    ensures Capped(Capped(s)) == Capped(s)
  {
    var r := Capped(s);
    CappedRepeats(s);
    CappedRepeats(r);
    assert AtMostTwice(AtMostTwice(Repeats(s))) == AtMostTwice(Repeats(s));
    SpelledBack(r);
    SpelledBack(Capped(r));
  }

  // ----- the list of variants

  /** The non-empty texts of the list, each where it first occurs. */
  function Firsts(variants: seq<string>, n: nat): seq<string>
    requires n <= |variants|
  {
    if n == 0 then []
    else
      var v := variants[n - 1];
      Firsts(variants, n - 1) + if v != "" && v !in variants[..n - 1] then [v] else []
  }

  method Deduplicate(variants: seq<string>) returns (unique: seq<string>)
    ensures unique == Firsts(variants, |variants|)
  {
    var seen: set<string> := {};
    unique := [];
    for k := 0 to |variants|
      invariant unique == Firsts(variants, k)
      invariant forall v :: v in seen <==> v in unique
    {
      var v := variants[k];
      FirstsAreTheList(variants, k);
      if v != "" && v !in seen {
        seen := seen + {v};
        unique := unique + [v];
      }
    }
  }

  lemma {:induction false} FirstsAreTheList(variants: seq<string>, n: nat)
    requires n <= |variants|
    ensures var t := Firsts(variants, n);
            && (forall v :: v in t <==> v != "" && v in variants[..n])
            && Distinct(t)
  {
    if n > 0 {
      FirstsAreTheList(variants, n - 1);
      assert variants[..n] == variants[..n - 1] + [variants[n - 1]];
    }
  }

  /** In the order of first occurrence: some prefix of the list holds the earlier of two and not the later. */
  lemma {:induction false} FirstsInOrder(variants: seq<string>, n: nat)
    requires n <= |variants|
    ensures var t := Firsts(variants, n);
            forall i, j :: 0 <= i < j < |t| ==>
              exists k :: 0 <= k <= n && t[i] in variants[..k] && t[j] !in variants[..k]
  {
    if n > 0 {
      FirstsInOrder(variants, n - 1);
      FirstsAreTheList(variants, n - 1);
      var before, t := Firsts(variants, n - 1), Firsts(variants, n);
      forall i, j | 0 <= i < j < |t|
        ensures exists k :: 0 <= k <= n && t[i] in variants[..k] && t[j] !in variants[..k]
      {
        if j == |before| {
          assert t[i] == before[i] && before[i] in variants[..n - 1] && t[j] !in variants[..n - 1];
        } else {
          assert t[i] == before[i] && t[j] == before[j];
        }
      }
    }
  }
}
