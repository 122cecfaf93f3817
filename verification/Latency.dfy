/** The accelerated detector: precomputed sets of disguised words, scanned in any order with early
    exit, and memoised in the LRU cache. */
module Latency {
  import opened Common
  import opened Detector
  import LruCache

  const FAST_PATH := 32
  const DEFAULT_CAPACITY := 10000

  datatype ThreatScore = ThreatScore(score: nat, isThreat: bool, variant: string)

  const FAST := ThreatScore(0, false, "fast_path")

  /** UTF-8 decoding and the FNV-1a hash belong to Go's library. */
  datatype Runtime = Runtime(decode: string -> seq<nat>, hash: string -> nat)

  datatype Variants = Variants(attack: set<string>, transpositions: set<string>,
                               vowelDeleted: set<string>, reversed: set<string>)

  // ----- precomputed sets

  function AllForms(words: seq<string>, forms: Disguise): set<string> {
    if words == [] then {}
    else AllForms(words[..|words| - 1], forms) + forms(words[|words| - 1])
  }

  function VariantsOf(words: seq<string>): Variants {
    Variants((set w | w in words), AllForms(words, TransposedForms),
             AllForms(words, VowelDeletedForms), AllForms(words, ReversedForms))
  }

  lemma {:induction false} InAllForms(words: seq<string>, forms: Disguise, f: string)
    ensures f in AllForms(words, forms) <==> exists i :: 0 <= i < |words| && f in forms(words[i])
  {
    if words != [] {
      var n := |words| - 1;
      InAllForms(words[..n], forms, f);
      assert forall i :: 0 <= i < n ==> words[..n][i] == words[i];
    }
  }

  // ----- the meaning of a scan

  function Hits(text: string, forms: set<string>): set<string> {
    set f | f in forms && Contains(text, f)
  }

  /** Adds `weight` until the threat threshold is reached. */
  function Reach(score: nat, weight: nat): nat
    requires weight > 0
    decreases THREAT - score
  {
    if score >= THREAT then score else Reach(score + weight, weight)
  }

  /** The weighted number of known forms in the text, without any early exit. */
  function Total(text: string, v: Variants): nat {
    4 * |Hits(text, v.attack)| + 4 * |Hits(text, v.transpositions)|
    + 3 * |Hits(text, v.vowelDeleted)| + 3 * |Hits(text, v.reversed)|
  }

  /** The result of the four scans, whatever the order within each. */
  function PureScore(text: string, v: Variants): ThreatScore {
    if text == "" then ThreatScore(0, false, "empty")
    else
      var direct := 4 * |Hits(text, v.attack)|;
      var transposed := direct + 4 * |Hits(text, v.transpositions)|;
      var deleted := transposed + 3 * |Hits(text, v.vowelDeleted)|;
      var reversed := deleted + 3 * |Hits(text, v.reversed)|;
      if direct >= THREAT then ThreatScore(Reach(0, 4), true, "direct_match")
      else if transposed >= THREAT then ThreatScore(Reach(direct, 4), true, "transposition")
      else if deleted >= THREAT then ThreatScore(Reach(transposed, 3), true, "vowel_deleted")
      else if reversed >= THREAT then ThreatScore(Reach(deleted, 3), true, "reversed")
      else ThreatScore(reversed, false, "heuristic")
  }

  /** A threat exactly when the full weighted sum reaches 0.5; otherwise the score is that sum. The cut
      at 0.9 never acts: an early exit leaves at most 0.8. */
  lemma {:induction false} PureScoreMeaning(text: string, v: Variants)
    requires text != ""
    ensures PureScore(text, v).isThreat <==> Total(text, v) >= THREAT
    ensures PureScore(text, v).isThreat ==> THREAT <= PureScore(text, v).score <= Min(8, Total(text, v))
    ensures !PureScore(text, v).isThreat ==> PureScore(text, v).score == Total(text, v)
  {
  }

  /** The disguises of one kind of the listed words that occur in a text. */
  ghost function FormsFound(text: string, words: seq<string>, forms: Disguise): set<string> {
    set w, f | w in words && f in forms(w) && Contains(text, f) :: f
  }

  /** The sum in terms of the word list alone: the listed words in the text count, and so does each kind of
      disguise. */
  lemma {:induction false} TotalOverWords(text: string, words: seq<string>)
    ensures Total(text, VariantsOf(words))
            == 4 * |set w | w in words && Contains(text, w)| + 4 * |FormsFound(text, words, TransposedForms)|
               + 3 * |FormsFound(text, words, VowelDeletedForms)| + 3 * |FormsFound(text, words, ReversedForms)|
  {
    var v := VariantsOf(words);
    assert Hits(text, v.attack) == set w | w in words && Contains(text, w);
    HitsAreFound(text, words, TransposedForms);
    HitsAreFound(text, words, VowelDeletedForms);
    HitsAreFound(text, words, ReversedForms);
  }

  lemma HitsAreFound(text: string, words: seq<string>, forms: Disguise)
    ensures Hits(text, AllForms(words, forms)) == FormsFound(text, words, forms)
  {
    forall f ensures f in Hits(text, AllForms(words, forms)) <==> f in FormsFound(text, words, forms) {
      InAllForms(words, forms, f);
    }
  }

  /** Two different listed words in a long text make it a threat. */
  lemma {:induction false} TwoWordsAreThreat(rt: Runtime, words: seq<string>, text: string, a: string, b: string)
    requires |text| >= FAST_PATH && a in words && b in words && a != b
    requires Contains(Lower(rt.decode(text)), a) && Contains(Lower(rt.decode(text)), b)
    ensures VerdictOf(rt, VariantsOf(words), text).isThreat
  {
    var t := Lower(rt.decode(text));
    var listed := set w | w in words && Contains(t, w);
    SubsetSize({a, b}, listed);
    TotalOverWords(t, words);
    assert t != "";
    PureScoreMeaning(t, VariantsOf(words));
  }

  /** An early exit leaves the first score to reach 0.5, hit by hit. */
  lemma {:induction false} ReachIsLeast(score: nat, weight: nat, hits: nat)
    requires 0 < weight && score < THREAT
    requires score + hits * weight >= THREAT && (hits == 1 || score + (hits - 1) * weight < THREAT)
    ensures Reach(score, weight) == score + hits * weight
    decreases THREAT - score
  {
    if hits > 1 {
      assert (hits - 1) * weight == weight + (hits - 2) * weight;
      assert score + weight < THREAT;
      assert hits * weight == weight + (hits - 1) * weight;
      ReachIsLeast(score + weight, weight, hits - 1);
    } else {
      assert hits == 1 && hits * weight == weight;
    }
  }

  /** What a detector call must return for a text. */
  function VerdictOf(rt: Runtime, v: Variants, text: string): ThreatScore {
    if |text| < FAST_PATH then FAST else PureScore(Lower(rt.decode(text)), v)
  }

  /** `start` plus `weight` for each hit. */
  function Added(start: nat, weight: nat, hits: nat): nat {
    if hits == 0 then start else Added(start, weight, hits - 1) + weight
  }

  lemma {:induction false} AddedIs(start: nat, weight: nat, hits: nat)
    ensures Added(start, weight, hits) == start + weight * hits
  {
    if hits > 0 {
      AddedIs(start, weight, hits - 1);
      assert weight * hits == weight * (hits - 1) + weight;
    }
  }

  lemma {:induction false} AddedGrows(start: nat, weight: nat, fewer: nat, more: nat)
    requires fewer <= more
    ensures Added(start, weight, fewer) <= Added(start, weight, more)
  {
    if fewer < more {
      AddedGrows(start, weight, fewer, more - 1);
    }
  }

  /** One scan: `pending` shrinks in any order, as ranging over a Go map does. */
  method ScanSet(text: string, forms: set<string>, weight: nat, start: nat) returns (score: nat, exit: bool)
    requires weight > 0 && start < THREAT
    ensures exit <==> start + weight * |Hits(text, forms)| >= THREAT
    ensures score == if exit then Reach(start, weight) else start + weight * |Hits(text, forms)|
  {
    AddedIs(start, weight, |Hits(text, forms)|);
    score, exit := start, false;
    var pending := forms;
    ghost var seen: set<string> := {};
    while pending != {}
      invariant seen !! pending && seen + pending == forms
      invariant score == Added(start, weight, |Hits(text, seen)|) < THREAT
      invariant Reach(start, weight) == Reach(score, weight)
      decreases |pending|
    {
      var f :| f in pending;
      HitsGrow(text, seen, f);
      pending, seen := pending - {f}, seen + {f};
      MoreForms(text, seen, forms);
      AddedGrows(start, weight, |Hits(text, seen)|, |Hits(text, forms)|);
      var hit := SearchString(text, f);
      if hit {
        score := score + weight;
        if score >= THREAT {
          return score, true;
        }
      }
    }
    assert seen == forms;
  }

  lemma HitsGrow(text: string, seen: set<string>, f: string)
    requires f !in seen
    ensures |Hits(text, seen + {f})| == |Hits(text, seen)| + if Contains(text, f) then 1 else 0
  {
    assert Hits(text, seen + {f}) == Hits(text, seen) + if Contains(text, f) then {f} else {};
  }

  lemma MoreForms(text: string, some: set<string>, all: set<string>)
    requires some <= all
    ensures |Hits(text, some)| <= |Hits(text, all)|
  {
    SubsetSize(Hits(text, some), Hits(text, all));
  }

  method Swaps(word: string) returns (forms: set<string>)
    ensures forms == TransposedForms(word)
  {
    forms := {};
    for i := 0 to if word == "" then 0 else |word| - 1
      invariant forms == set k | 0 <= k < i :: Transposed(word, k)
    {
      forms := forms + {Transposed(word, i)};
    }
  }

  datatype Stats = Stats(cacheHits: nat, cacheMisses: nat, fastPathHits: nat, earlyExits: nat, totalCalls: nat)

  /** The counters after one call. */
  function Counted(s: Stats, short: bool, hit: bool, threat: bool): Stats {
    var t := s.(totalCalls := s.totalCalls + 1);
    if short then t.(fastPathHits := t.fastPathHits + 1)
    else if hit then t.(cacheHits := t.cacheHits + 1)
    else t.(cacheMisses := t.cacheMisses + 1, earlyExits := t.earlyExits + if threat then 1 else 0)
  }

  // ----- one memoised call, on what the cache holds

  /** What a call answers: the cached score for the hash, if there is one, whatever text put it there. */
  ghost function Memoised(rt: Runtime, v: Variants, cache: seq<LruCache.Pair<ThreatScore>>, text: string): ThreatScore {
    if |text| < FAST_PATH then FAST
    else
      match LruCache.Lookup(cache, rt.hash(text))
      case Some(r) => r
      case None => VerdictOf(rt, v, text)
  }

  /** What a call leaves in the cache. */
  ghost function AfterCall(
    rt: Runtime, v: Variants, capacity: nat, cache: seq<LruCache.Pair<ThreatScore>>, text: string)
    : seq<LruCache.Pair<ThreatScore>>
  {
    var key := rt.hash(text);
    if |text| < FAST_PATH then cache
    else if LruCache.Lookup(cache, key).Some? then LruCache.AfterGet(cache, key)
    else LruCache.AfterPut(capacity, cache, key, VerdictOf(rt, v, text))
  }

  /** A hit and a miss of a long text, put together. */
  lemma AnswersAsMemoised(
    rt: Runtime, v: Variants, capacity: nat, cache: seq<LruCache.Pair<ThreatScore>>, text: string,
    hit: Option<ThreatScore>, r: ThreatScore, after: seq<LruCache.Pair<ThreatScore>>)
    requires |text| >= FAST_PATH && hit == LruCache.Lookup(cache, rt.hash(text))
    requires r == if hit.Some? then hit.value else VerdictOf(rt, v, text)
    requires after == if hit.Some? then LruCache.AfterGet(cache, rt.hash(text))
                      else LruCache.AfterPut(capacity, cache, rt.hash(text), r)
    ensures r == Memoised(rt, v, cache, text) && after == AfterCall(rt, v, capacity, cache, text)
  {
  }

  class Optimizer {
    const rt: Runtime
    const cache: LruCache.Cache<ThreatScore>
    var variants: Variants
    var stats: Stats

    ghost predicate Valid()
      reads this, cache, cache.order
    {
      && cache.Valid()
      && stats.totalCalls == stats.fastPathHits + stats.cacheHits + stats.cacheMisses
      && stats.earlyExits <= stats.cacheMisses
    }

    /** The program always passes ATTACK_WORDS. */
    constructor (rt: Runtime, words: seq<string>)
      ensures Valid() && fresh(cache) && this.rt == rt
      ensures variants == VariantsOf(words) && cache.contents == [] && cache.capacity == DEFAULT_CAPACITY
    {
      this.rt := rt;
      cache := new LruCache.Cache(DEFAULT_CAPACITY);
      stats := Stats(0, 0, 0, 0, 0);
      variants := Variants((set w | w in words), {}, {}, {});
      new;
      PrecomputeVariants(words);
    }

    /** Rebuilds the three derived sets; the set of the words themselves is left alone. */
    method PrecomputeVariants(words: seq<string>)
      modifies this`variants
      ensures variants.attack == old(variants.attack)
      ensures variants.transpositions == AllForms(words, TransposedForms)
      ensures variants.vowelDeleted == AllForms(words, VowelDeletedForms)
      ensures variants.reversed == AllForms(words, ReversedForms)
    {
      var transpositions: set<string>, vowelDeleted: set<string>, reversed: set<string> := {}, {}, {};
      for i := 0 to |words|
        invariant variants == old(variants)
        invariant transpositions == AllForms(words[..i], TransposedForms)
        invariant vowelDeleted == AllForms(words[..i], VowelDeletedForms)
        invariant reversed == AllForms(words[..i], ReversedForms)
      {
        assert words[..i + 1][..i] == words[..i];
        var word := words[i];
        var swaps := Swaps(word);
        transpositions := transpositions + swaps;
        var vd := VowelDeleted(word);
        if vd != word {
          vowelDeleted := vowelDeleted + {vd};
        }
        var rev := Reverse(word);
        if |rev| >= 4 {
          reversed := reversed + {rev};
        }
      }
      assert words[..|words|] == words;
      variants := variants.(transpositions := transpositions, vowelDeleted := vowelDeleted, reversed := reversed);
    }

    /** The detector proper: four scans, the first to reach the threshold ends it. */
    method DetectWithSets(text: string) returns (r: ThreatScore)
      modifies this`stats
      ensures r == PureScore(Lower(rt.decode(text)), variants)
      ensures stats == old(stats).(earlyExits := old(stats).earlyExits + if r.isThreat then 1 else 0)
    {
      var textLower := ToLower(rt.decode(text));
      if textLower == "" {
        return ThreatScore(0, false, "empty");
      }
      var score, exit := ScanSet(textLower, variants.attack, 4, 0);
      if exit {
        r := EarlyExit(score, "direct_match");
        return;
      }
      score, exit := ScanSet(textLower, variants.transpositions, 4, score);
      if exit {
        r := EarlyExit(score, "transposition");
        return;
      }
      score, exit := ScanSet(textLower, variants.vowelDeleted, 3, score);
      if exit {
        r := EarlyExit(score, "vowel_deleted");
        return;
      }
      score, exit := ScanSet(textLower, variants.reversed, 3, score);
      if exit {
        r := EarlyExit(score, "reversed");
        return;
      }
      if score > CAP {
        score := CAP;
      }
      return ThreatScore(score, score >= THREAT, "heuristic");
    }

    method EarlyExit(score: nat, variant: string) returns (r: ThreatScore)
      modifies this`stats
      requires score <= CAP
      ensures r == ThreatScore(score, true, variant)
      ensures stats == old(stats).(earlyExits := old(stats).earlyExits + 1)
    {
      stats := stats.(earlyExits := stats.earlyExits + 1);
      return ThreatScore(Min(score, CAP), true, variant);
    }

    /** Answers from the cache when it can, and otherwise detects and stores. */
    method OptimizedDetect(text: string) returns (r: ThreatScore)
      requires Valid()
      modifies this`stats, cache, LruCache.Elements(cache.order)
      ensures Valid() && fresh(LruCache.Elements(cache.order) - old(LruCache.Elements(cache.order)))
      ensures r == Memoised(rt, variants, old(cache.contents), text)
      ensures cache.contents == AfterCall(rt, variants, cache.capacity, old(cache.contents), text)
      ensures stats == Counted(old(stats), |text| < FAST_PATH,
                               LruCache.Lookup(old(cache.contents), rt.hash(text)).Some?, r.isThreat)
    {
      stats := stats.(totalCalls := stats.totalCalls + 1);
      if |text| < FAST_PATH {
        stats := stats.(fastPathHits := stats.fastPathHits + 1);
        return FAST;
      }
      ghost var was := cache.contents;
      ghost var hit;
      r, hit := RecallOrDetect(text, rt.hash(text));
      AnswersAsMemoised(rt, variants, cache.capacity, was, text, hit, r, cache.contents);
    }

    method RecallOrDetect(text: string, key: nat) returns (r: ThreatScore, ghost hit: Option<ThreatScore>)
      requires cache.Valid() && |text| >= FAST_PATH
      modifies this`stats, cache, LruCache.Elements(cache.order)
      ensures cache.Valid() && fresh(LruCache.Elements(cache.order) - old(LruCache.Elements(cache.order)))
      ensures hit == LruCache.Lookup(old(cache.contents), key)
      ensures r == if hit.Some? then hit.value else VerdictOf(rt, variants, text)
      ensures cache.contents == if hit.Some? then LruCache.AfterGet(old(cache.contents), key)
                                else LruCache.AfterPut(cache.capacity, old(cache.contents), key, r)
      ensures hit.Some? ==> stats == old(stats).(cacheHits := old(stats).cacheHits + 1)
      ensures hit.None? ==> stats == old(stats).(cacheMisses := old(stats).cacheMisses + 1,
                                                 earlyExits := old(stats).earlyExits + if r.isThreat then 1 else 0)
    {
      hit := LruCache.Lookup(cache.contents, key);
      var cached := cache.Get(key);
      if cached.Some? {
        stats := stats.(cacheHits := stats.cacheHits + 1);
        return cached.value, hit;
      }
      stats := stats.(cacheMisses := stats.cacheMisses + 1);
      r := DetectAndStore(text, key);
    }

    method DetectAndStore(text: string, key: nat) returns (r: ThreatScore)
      requires cache.Valid() && |text| >= FAST_PATH
      modifies this`stats, cache, LruCache.Elements(cache.order)
      ensures cache.Valid() && fresh(LruCache.Elements(cache.order) - old(LruCache.Elements(cache.order)))
      ensures r == VerdictOf(rt, variants, text)
      ensures cache.contents == LruCache.AfterPut(cache.capacity, old(cache.contents), key, r)
      ensures stats == old(stats).(earlyExits := old(stats).earlyExits + if r.isThreat then 1 else 0)
    {
      r := DetectWithSets(text);
      cache.Put(key, r);
    }

    /** Clears the cache; it is the only operation that drops verdicts of former sets. */
    method ResetCache()
      requires Valid()
      modifies cache
      ensures Valid() && cache.contents == []
    {
      cache.Clear();
    }
  }
}
