/** When memoised detection gives the verdict itself: exactly when texts that share a hash share their
    verdict, and until the sets of disguises are rebuilt behind the cache. */
module Memoisation {
  import opened Detector
  import opened Latency
  import Agreement
  import LruCache

  type Contents = seq<LruCache.Pair<ThreatScore>>

  /** Every cached score is the verdict of each text of the universe with that hash. */
  ghost predicate Faithful(rt: Runtime, v: Variants, universe: iset<string>, cache: Contents) {
    forall text, i :: text in universe && |text| >= FAST_PATH && 0 <= i < |cache| && cache[i].key == rt.hash(text) ==>
                        cache[i].value == VerdictOf(rt, v, text)
  }

  /** Texts that reach the cache under the same hash have the same verdict. */
  ghost predicate NoClash(rt: Runtime, v: Variants, universe: iset<string>) {
    forall a, b ::
      a in universe && b in universe && |a| >= FAST_PATH && |b| >= FAST_PATH && rt.hash(a) == rt.hash(b) ==>
        VerdictOf(rt, v, a) == VerdictOf(rt, v, b)
  }

  lemma GetFaithful(rt: Runtime, v: Variants, universe: iset<string>, cache: Contents, key: nat)
    requires Faithful(rt, v, universe, cache)
    ensures Faithful(rt, v, universe, LruCache.AfterGet(cache, key))
  {
  }

  /** Storing a verdict keeps the cache faithful. */
  lemma PutFaithful(rt: Runtime, v: Variants, universe: iset<string>, capacity: nat, cache: Contents, text: string)
    requires Faithful(rt, v, universe, cache) && NoClash(rt, v, universe) && text in universe && |text| >= FAST_PATH
    ensures Faithful(rt, v, universe, LruCache.AfterPut(capacity, cache, rt.hash(text), VerdictOf(rt, v, text)))
  {
  }

  /** From a faithful cache a call answers the verdict and leaves a faithful cache. */
  lemma CallIsRight(rt: Runtime, v: Variants, universe: iset<string>, capacity: nat, cache: Contents, text: string)
    requires Faithful(rt, v, universe, cache) && NoClash(rt, v, universe) && text in universe
    ensures Memoised(rt, v, cache, text) == VerdictOf(rt, v, text)
    ensures Faithful(rt, v, universe, AfterCall(rt, v, capacity, cache, text))
  {
    GetFaithful(rt, v, universe, cache, rt.hash(text));
    if |text| >= FAST_PATH {
      PutFaithful(rt, v, universe, capacity, cache, text);
    }
  }

  // ----- whole runs of calls

  /** What a run of calls answers and leaves in the cache, from what is in it at the start. */
  ghost function Calls(rt: Runtime, v: Variants, capacity: nat, start: Contents, texts: seq<string>)
    : (r: (Contents, seq<ThreatScore>))
    ensures |r.1| == |texts|
  {
    if texts == [] then (start, [])
    else
      var k := |texts| - 1;
      var (cache, answers) := Calls(rt, v, capacity, start, texts[..k]);
      (AfterCall(rt, v, capacity, cache, texts[k]), answers + [Memoised(rt, v, cache, texts[k])])
  }

  ghost predicate AllRight(rt: Runtime, v: Variants, capacity: nat, texts: seq<string>) {
    forall i :: 0 <= i < |texts| ==> Calls(rt, v, capacity, [], texts).1[i] == VerdictOf(rt, v, texts[i])
  }

  lemma {:induction false} CallsRight(
    rt: Runtime, v: Variants, universe: iset<string>, capacity: nat, texts: seq<string>)
    requires NoClash(rt, v, universe) && forall i :: 0 <= i < |texts| ==> texts[i] in universe
    ensures Faithful(rt, v, universe, Calls(rt, v, capacity, [], texts).0) && AllRight(rt, v, capacity, texts)
  {
    if texts != [] {
      var k := |texts| - 1;
      CallsRight(rt, v, universe, capacity, texts[..k]);
      var (cache, answers) := Calls(rt, v, capacity, [], texts[..k]);
      CallIsRight(rt, v, universe, capacity, cache, texts[k]);
      forall i | 0 <= i < |texts| ensures Calls(rt, v, capacity, [], texts).1[i] == VerdictOf(rt, v, texts[i]) {
        if i < k {
          assert answers[i] == VerdictOf(rt, v, texts[..k][i]);
        }
      }
    }
  }

  /** Every answer of every run over the universe is the verdict of its text exactly when no two of its
      texts clash; so no weaker assumption on the hash would do. */
  lemma {:induction false} AlwaysRightIff(rt: Runtime, v: Variants, universe: iset<string>, capacity: nat)
    ensures NoClash(rt, v, universe) <==>
            forall texts :: (forall i :: 0 <= i < |texts| ==> texts[i] in universe) ==> AllRight(rt, v, capacity, texts)
  {
    if NoClash(rt, v, universe) {
      forall texts | forall i :: 0 <= i < |texts| ==> texts[i] in universe ensures AllRight(rt, v, capacity, texts) {
        CallsRight(rt, v, universe, capacity, texts);
      }
    } else {
      var a, b :| a in universe && b in universe && |a| >= FAST_PATH && |b| >= FAST_PATH && rt.hash(a) == rt.hash(b)
                  && VerdictOf(rt, v, a) != VerdictOf(rt, v, b);
      ClashAnswersWrong(rt, v, capacity, a, b);
      assert forall i :: 0 <= i < |[a, b]| ==> [a, b][i] in universe;
    }
  }

  lemma FirstCall(rt: Runtime, v: Variants, capacity: nat, text: string)
    requires |text| >= FAST_PATH
    ensures Calls(rt, v, capacity, [], [text]).0 == [LruCache.Pair(rt.hash(text), VerdictOf(rt, v, text))]
  {
    var empty: Contents := [];
    assert [text][..0] == [] && Calls(rt, v, capacity, [], []).0 == empty;
    assert !LruCache.Has(empty, rt.hash(text));
    assert LruCache.AfterPut(capacity, empty, rt.hash(text), VerdictOf(rt, v, text))
        == [LruCache.Pair(rt.hash(text), VerdictOf(rt, v, text))] + empty;
  }

  lemma {:induction false} ClashAnswersWrong(rt: Runtime, v: Variants, capacity: nat, a: string, b: string)
    requires |a| >= FAST_PATH && |b| >= FAST_PATH && rt.hash(a) == rt.hash(b)
    requires VerdictOf(rt, v, a) != VerdictOf(rt, v, b)
    ensures !AllRight(rt, v, capacity, [a, b])
  {
    var cache := Calls(rt, v, capacity, [], [a]).0;
    FirstCall(rt, v, capacity, a);
    assert [a, b][..1] == [a] && cache[0].key == rt.hash(b);
    assert Calls(rt, v, capacity, [], [a, b]).1[1] == Memoised(rt, v, cache, b);
  }

  // ----- sets rebuilt behind the cache

  predicate Cached(rt: Runtime, cache: Contents, text: string) {
    |text| >= FAST_PATH && exists i :: 0 <= i < |cache| && cache[i].key == rt.hash(text)
  }

  /** The text is long and its hash has been in the cache from the start to the end of the run. */
  ghost predicate KeptCached(rt: Runtime, v: Variants, capacity: nat, start: Contents, texts: seq<string>, text: string)
  {
    && Cached(rt, Calls(rt, v, capacity, start, texts).0, text)
    && (texts == [] || KeptCached(rt, v, capacity, start, texts[..|texts| - 1], text))
  }

  /** The sets whose verdict a text gets after the run: the former ones while it has been kept. */
  ghost function InForce(
    rt: Runtime, was: Variants, now: Variants, capacity: nat, start: Contents, texts: seq<string>, text: string)
    : Variants
  {
    if KeptCached(rt, now, capacity, start, texts, text) then was else now
  }

  /** After a rebuild, from a cache that holds verdicts of the sets `was`, and any calls under the sets `now`: a
      text is answered by `was` when it is long and its hash has been cached ever since, and by `now` otherwise.
      So the answer is right exactly when it has not been, or both sets have the same verdict. */
  lemma {:induction false} StaleAnswer(
    rt: Runtime, was: Variants, now: Variants, universe: iset<string>, capacity: nat, start: Contents,
    texts: seq<string>, text: string)
    requires Faithful(rt, was, universe, start) && NoClash(rt, now, universe)
    requires text in universe && forall i :: 0 <= i < |texts| ==> texts[i] in universe
    ensures var answer := Memoised(rt, now, Calls(rt, now, capacity, start, texts).0, text);
            && answer == VerdictOf(rt, InForce(rt, was, now, capacity, start, texts, text), text)
            && (answer == VerdictOf(rt, now, text)
                <==> !KeptCached(rt, now, capacity, start, texts, text)
                     || VerdictOf(rt, was, text) == VerdictOf(rt, now, text))
  {
    var cache := Calls(rt, now, capacity, start, texts).0;
    var i := LruCache.IndexOf(cache, rt.hash(text));
    if |text| >= FAST_PATH && i < |cache| {
      EntryInForce(rt, was, now, universe, capacity, start, texts, text);
    } else {
      assert !Cached(rt, cache, text);
    }
  }

  /** Every entry under the hash of a text holds its verdict by some sets. */
  ghost predicate HoldsBy(rt: Runtime, v: Variants, cache: Contents, text: string) {
    forall i :: 0 <= i < |cache| && cache[i].key == rt.hash(text) ==> cache[i].value == VerdictOf(rt, v, text)
  }

  lemma {:induction false} EntryInForce(
    rt: Runtime, was: Variants, now: Variants, universe: iset<string>, capacity: nat, start: Contents,
    texts: seq<string>, text: string)
    requires Faithful(rt, was, universe, start) && NoClash(rt, now, universe)
    requires text in universe && |text| >= FAST_PATH && forall j :: 0 <= j < |texts| ==> texts[j] in universe
    ensures HoldsBy(rt, InForce(rt, was, now, capacity, start, texts, text),
                    Calls(rt, now, capacity, start, texts).0, text)
  {
    if texts == [] {
      assert !KeptCached(rt, now, capacity, start, [], text) ==> !Cached(rt, start, text);
    } else {
      var k := |texts| - 1;
      EntryInForce(rt, was, now, universe, capacity, start, texts[..k], text);
      var before := Calls(rt, now, capacity, start, texts[..k]).0;
      var kept := KeptCached(rt, now, capacity, start, texts[..k], text);
      CallInForce(rt, was, now, universe, capacity, before, texts[k], text, kept);
      assert !Cached(rt, Calls(rt, now, capacity, start, texts).0, text)
             || KeptCached(rt, now, capacity, start, texts, text) == kept;
    }
  }

  /** One call keeps that, and what it stores is by the present sets. */
  lemma {:induction false} CallInForce(
    rt: Runtime, was: Variants, now: Variants, universe: iset<string>, capacity: nat, before: Contents,
    called: string, text: string, kept: bool)
    requires NoClash(rt, now, universe) && called in universe && text in universe && |text| >= FAST_PATH
    requires HoldsBy(rt, if kept then was else now, before, text) && (kept ==> Cached(rt, before, text))
    ensures HoldsBy(rt, if kept then was else now, AfterCall(rt, now, capacity, before, called), text)
  {
    var after := AfterCall(rt, now, capacity, before, called);
    forall i | 0 <= i < |after| && after[i].key == rt.hash(text)
      ensures after[i].value == VerdictOf(rt, if kept then was else now, text)
    {
      NewEntry(rt, now, capacity, before, called, i);
    }
  }

  /** What a call leaves in the cache was there, or is the verdict of its text under a hash that was not. */
  lemma NewEntry(rt: Runtime, v: Variants, capacity: nat, cache: Contents, text: string, i: nat)
    requires i < |AfterCall(rt, v, capacity, cache, text)|
    ensures var e := AfterCall(rt, v, capacity, cache, text)[i];
            e in cache
            || (e == LruCache.Pair(rt.hash(text), VerdictOf(rt, v, text))
                && |text| >= FAST_PATH && !Cached(rt, cache, text))
  {
  }

  /** Clearing the cache makes every set of disguises right again. */
  lemma ClearedIsFaithful(rt: Runtime, now: Variants, universe: iset<string>, capacity: nat, text: string)
    requires NoClash(rt, now, universe) && text in universe
    ensures Faithful(rt, now, universe, [])
    ensures Memoised(rt, now, [], text) == VerdictOf(rt, now, text)
    ensures Faithful(rt, now, universe, AfterCall(rt, now, capacity, [], text))
  {
    CallIsRight(rt, now, universe, capacity, [], text);
  }

  /** The sets after a rebuild: all but the words themselves. */
  function Rebuilt(v: Variants, words: seq<string>): Variants {
    Variants(v.attack, AllForms(words, TransposedForms), AllForms(words, VowelDeletedForms),
             AllForms(words, ReversedForms))
  }

  /** A stale answer: a text that was let through and cached stays let through when words that it disguises are
      added. */
  lemma {:induction false} RebuildUnseen(rt: Runtime, capacity: nat, words: seq<string>, text: string)
    requires |text| >= FAST_PATH && |Lower(rt.decode(text))| >= 4
    requires !VerdictOf(rt, VariantsOf(words), text).isThreat
    ensures var t := Lower(rt.decode(text));
            var was, cache := VariantsOf(words), Calls(rt, VariantsOf(words), capacity, [], [text]).0;
            var now := Rebuilt(was, words + [Transposed(t, 0), Reversed(t)]);
            VerdictOf(rt, now, text).isThreat && !Memoised(rt, now, cache, text).isThreat
  {
    var was, cache := VariantsOf(words), Calls(rt, VariantsOf(words), capacity, [], [text]).0;
    FirstCall(rt, was, capacity, text);
    assert cache[0].key == rt.hash(text);
    BothFormsFound(words, Lower(rt.decode(text)));
  }

  /** For instance 32 times the letter z, with the shipped words. */
  lemma {:induction false} RebuildUnseenAtShippedWords(rt: Runtime, text: string)
    requires |text| >= FAST_PATH && rt.decode(text) == seq(32, _ => 'z' as nat)
    ensures var t := Lower(rt.decode(text));
            var was := VariantsOf(ATTACK_WORDS);
            var cache := Calls(rt, was, DEFAULT_CAPACITY, [], [text]).0;
            var now := Rebuilt(was, ATTACK_WORDS + [Transposed(t, 0), Reversed(t)]);
            VerdictOf(rt, now, text).isThreat && !Memoised(rt, now, cache, text).isThreat
  {
    Agreement.NoLetterNoHit(Lower(rt.decode(text)));
    PureScoreMeaning(Lower(rt.decode(text)), VariantsOf(ATTACK_WORDS));
    RebuildUnseen(rt, DEFAULT_CAPACITY, ATTACK_WORDS, text);
  }

  lemma BothFormsFound(words: seq<string>, t: string)
    requires |t| >= 4
    ensures PureScore(t, Rebuilt(VariantsOf(words), words + [Transposed(t, 0), Reversed(t)])).isThreat
  {
    var n, more := |words|, words + [Transposed(t, 0), Reversed(t)];
    SwapTwice(t);
    ReverseTwice(t);
    assert more[n] == Transposed(t, 0) && more[n + 1] == Reversed(t);
    InAllForms(more, TransposedForms, t);
    InAllForms(more, ReversedForms, t);
    TwoHits(t, Rebuilt(VariantsOf(words), more));
  }

  lemma TwoHits(t: string, v: Variants)
    requires t != "" && t in v.transpositions && t in v.reversed
    ensures PureScore(t, v).isThreat
  {
    SelfHit(t);
    assert t in Hits(t, v.transpositions) && t in Hits(t, v.reversed);
    PureScoreMeaning(t, v);
  }

  lemma SelfHit(t: string)
    ensures Contains(t, t)
  {
    assert t[0..|t|] == t;
    assert OccursAt(t, t, 0);
  }

  lemma SwapTwice(t: string)
    requires |t| >= 4
    ensures t in TransposedForms(Transposed(t, 0))
  {
    assert Transposed(Transposed(t, 0), 0) == t;
  }

  lemma ReverseTwice(t: string)
    requires |t| >= 4
    ensures t in ReversedForms(Reversed(t))
  {
    ReversedAt(t);
    ReversedAt(Reversed(t));
    assert Reversed(Reversed(t)) == t;
  }
}
