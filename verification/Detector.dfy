/** The rule-based threat detector. Scores are counted in tenths (0.4 is 4); a Go string is its bytes. */
module Detector {
  import opened Common
  import CharNormalizer

  const ATTACK_WORDS: seq<string> := [
    "ignore", "bypass", "override", "inject", "admin",
    "system", "prompt", "hack", "exploit", "reveal",
    "extract", "steal", "disable", "delete", "remove",
    "access", "forge", "escalate", "poison", "corrupt"]

  const THREAT := 5  // the 0.5 threshold
  const CAP := 9     // scores are cut off at 0.9

  // ----- substrings

  predicate OccursAt(s: string, sub: string, i: int) {
    0 <= i <= |s| - |sub| && s[i..i + |sub|] == sub
  }

  predicate Contains(s: string, sub: string) {
    exists i :: 0 <= i <= |s| - |sub| && OccursAt(s, sub, i)
  }

  method SearchString(s: string, sub: string) returns (found: bool)
    ensures found == Contains(s, sub)
  {
    if |s| < |sub| {
      return false;
    }
    for i := 0 to |s| - |sub| + 1
      invariant forall j :: 0 <= j < i ==> !OccursAt(s, sub, j)
    {
      if OccursAt(s, sub, i) {
        return true;
      }
    }
    return false;
  }

  // ----- lower-casing, one byte per code point

  function LowerByte(c: nat): char {
    (if 'A' as nat <= c <= 'Z' as nat then c + 32 else c % 256) as char
  }

  function Lower(runes: seq<nat>): (s: string)
    ensures |s| == |runes| && forall i :: 0 <= i < |runes| ==> s[i] == LowerByte(runes[i])
  {
    if runes == [] then "" else Lower(runes[..|runes| - 1]) + [LowerByte(runes[|runes| - 1])]
  }

  method ToLower(runes: seq<nat>) returns (b: string)
    ensures b == Lower(runes)
  {
    b := "";
    for i := 0 to |runes|
      invariant b == Lower(runes[..i])
    {
      assert runes[..i + 1][..i] == runes[..i];
      b := b + [LowerByte(runes[i])];
    }
    assert runes[..|runes|] == runes;
  }

  // ----- the disguises of one word

  function Transposed(word: string, i: nat): string
    requires i + 1 < |word|
  {
    word[..i] + [word[i + 1]] + [word[i]] + word[i + 2..]
  }

  /** Two neighbours change places, and nothing else. */
  lemma TransposedIs(word: string, i: nat)
    requires i + 1 < |word|
    ensures |Transposed(word, i)| == |word|
    ensures Transposed(word, i)[i] == word[i + 1] && Transposed(word, i)[i + 1] == word[i]
    ensures forall k :: 0 <= k < |word| && k != i && k != i + 1 ==> Transposed(word, i)[k] == word[k]
  {
  }

  predicate IsVowel(c: char) {
    c == 'a' || c == 'e' || c == 'i' || c == 'o' || c == 'u'
  }

  /** The word without its vowels, its first letter always kept. */
  function DropVowels(word: string): string {
    if |word| <= 1 then word
    else
      var n := |word| - 1;
      if IsVowel(word[n]) then DropVowels(word[..n]) else DropVowels(word[..n]) + [word[n]]
  }

  /** The first letter stays, and of those behind it exactly the vowels go. */
  lemma DropVowelsAppended(word: string, c: char)
    ensures DropVowels([c]) == [c]
    ensures word != "" ==> DropVowels(word + [c]) == if IsVowel(c) then DropVowels(word) else DropVowels(word) + [c]
  {
    assert (word + [c])[..|word|] == word;
  }

  method VowelDeleted(word: string) returns (vd: string)
    ensures vd == DropVowels(word)
  {
    vd := "";
    for i := 0 to |word|
      invariant vd == DropVowels(word[..i])
    {
      assert word[..i + 1][..i] == word[..i];
      if i == 0 || !IsVowel(word[i]) {
        vd := vd + [word[i]];
      }
    }
    assert word[..|word|] == word;
  }

  function Reversed(word: string): string {
    if word == "" then "" else Reversed(word[1..]) + [word[0]]
  }

  lemma {:induction false} ReversedAt(word: string)
    ensures |Reversed(word)| == |word|
    ensures forall k :: 0 <= k < |word| ==> Reversed(word)[k] == word[|word| - 1 - k]
  {
    if word != "" {
      ReversedAt(word[1..]);
    }
  }

  method Reverse(word: string) returns (r: string)
    ensures r == Reversed(word)
  {
    var n := |word|;
    var runes := new char[n](i requires 0 <= i < n => word[i]);
    ReversedAt(word);
    var i, j := 0, n - 1;
    while i < j
      invariant 0 <= i <= n && j == n - 1 - i && i <= j + 1
      invariant forall k :: i <= k <= j ==> runes[k] == word[k]
      invariant forall k :: 0 <= k < i || j < k < n ==> runes[k] == Reversed(word)[k]
    {
      runes[i], runes[j] := runes[j], runes[i];
      i, j := i + 1, j - 1;
    }
    r := runes[..];
  }

  function TransposedForms(word: string): set<string> {
    set i | 0 <= i < |word| - 1 :: Transposed(word, i)
  }

  function LongTransposedForms(word: string): set<string> {
    if |word| < 4 then {} else TransposedForms(word)
  }

  function VowelDeletedForms(word: string): set<string> {
    if DropVowels(word) != word then {DropVowels(word)} else {}
  }

  function ReversedForms(word: string): set<string> {
    if |Reversed(word)| >= 4 then {Reversed(word)} else {}
  }

  /** Some form in the set occurs in the text. */
  predicate AnyIn(text: string, forms: set<string>) {
    exists f :: f in forms && Contains(text, f)
  }

  method IsTransposition(text: string, word: string) returns (found: bool)
    ensures found == AnyIn(text, LongTransposedForms(word))
    ensures found <==> |word| >= 4 && exists i :: 0 <= i < |word| - 1 && Contains(text, Transposed(word, i))
  {
    if |word| < 4 {
      return false;
    }
    for i := 0 to |word| - 1
      invariant forall j :: 0 <= j < i ==> !Contains(text, Transposed(word, j))
    {
      var swapped := Transposed(word, i);
      var hit := SearchString(text, swapped);
      if hit {
        assert swapped in LongTransposedForms(word);
        return true;
      }
    }
    return false;
  }

  method IsVowelDeleted(text: string, word: string) returns (found: bool)
    ensures found == AnyIn(text, VowelDeletedForms(word))
    ensures found <==> DropVowels(word) != word && Contains(text, DropVowels(word))
  {
    var vd := VowelDeleted(word);
    var hit := SearchString(text, vd);
    return vd != word && hit;
  }

  method ContainsReversed(text: string, word: string) returns (found: bool)
    ensures found == AnyIn(text, ReversedForms(word))
    ensures found <==> |word| >= 4 && Contains(text, Reversed(word))
  {
    var rev := Reverse(word);
    ReversedAt(word);
    var hit := SearchString(text, rev);
    return |rev| >= 4 && hit;
  }

  // ----- the per-word score

  type Disguise = string -> set<string>

  /** How many of the words (counting repeats) have some form in the text. */
  function CountWords(text: string, words: seq<string>, forms: Disguise): nat {
    if words == [] then 0
    else
      var n := |words| - 1;
      CountWords(text, words[..n], forms) + if AnyIn(text, forms(words[n])) then 1 else 0
  }

  function HeuristicSum(text: string, words: seq<string>): nat {
    4 * CountWords(text, words, LongTransposedForms)
    + 3 * CountWords(text, words, VowelDeletedForms)
    + 3 * CountWords(text, words, ReversedForms)
  }

  lemma {:induction false} CountConcat(text: string, a: seq<string>, b: seq<string>, forms: Disguise)
    ensures CountWords(text, a + b, forms) == CountWords(text, a, forms) + CountWords(text, b, forms)
  {
    if b == [] {
      assert a + b == a;
    } else {
      var p := b[..|b| - 1];
      CountConcat(text, a, p, forms);
      assert (a + b)[..|a + b| - 1] == a + p;
    }
  }

  /** Each word adds its own part, ... */
  lemma {:induction false} SumConcat(text: string, a: seq<string>, b: seq<string>)
    ensures HeuristicSum(text, a + b) == HeuristicSum(text, a) + HeuristicSum(text, b)
  {
    CountConcat(text, a, b, LongTransposedForms);
    CountConcat(text, a, b, VowelDeletedForms);
    CountConcat(text, a, b, ReversedForms);
  }

  /** ... 0.4 when it occurs with two letters transposed, and 0.3 each without its vowels and reversed. */
  lemma {:induction false} SumOfOne(text: string, w: string)
    ensures HeuristicSum(text, []) == 0
    ensures HeuristicSum(text, [w])
            == (if |w| >= 4 && exists i :: 0 <= i < |w| - 1 && Contains(text, Transposed(w, i)) then 4 else 0)
               + (if DropVowels(w) != w && Contains(text, DropVowels(w)) then 3 else 0)
               + (if |w| >= 4 && Contains(text, Reversed(w)) then 3 else 0)
  {
    assert [w][..0] == [];
    ReversedAt(w);
    if i :| 0 <= i < |w| - 1 && Contains(text, Transposed(w, i)) {
      assert Transposed(w, i) in TransposedForms(w);
    }
  }

  /** The score of an encoded text. */
  function RuleScore(encoded: seq<nat>, words: seq<string>): nat {
    var text := CharNormalizer.Decoded(encoded);
    if text == [] then 0 else Min(CAP, HeuristicSum(Lower(text), words))
  }

  method HeuristicScore(encoded: seq<nat>, words: seq<string>) returns (score: nat)
    ensures score == RuleScore(encoded, words)
  {
    var decoded := CharNormalizer.Decode(encoded);
    if decoded == [] {
      return 0;
    }
    var text := ToLower(decoded);
    score := AddedScores(text, words);
    if score > CAP {
      score := CAP;
    }
  }

  /** The three loops over the words. */
  method AddedScores(text: string, words: seq<string>) returns (score: nat)
    ensures score == HeuristicSum(text, words)
  {
    score := 0;
    for i := 0 to |words|
      invariant score == 4 * CountWords(text, words[..i], LongTransposedForms)
    {
      assert words[..i + 1][..i] == words[..i];
      var hit := IsTransposition(text, words[i]);
      if hit { score := score + 4; }
    }
    assert words[..|words|] == words;
    ghost var transposed := score;
    for i := 0 to |words|
      invariant score == transposed + 3 * CountWords(text, words[..i], VowelDeletedForms)
    {
      assert words[..i + 1][..i] == words[..i];
      var hit := IsVowelDeleted(text, words[i]);
      if hit { score := score + 3; }
    }
    ghost var deleted := score;
    for i := 0 to |words|
      invariant score == deleted + 3 * CountWords(text, words[..i], ReversedForms)
    {
      assert words[..i + 1][..i] == words[..i];
      var hit := ContainsReversed(text, words[i]);
      if hit { score := score + 3; }
    }
  }

  // ----- all variants, with early exit

  datatype Config = Config(enabled: bool, shadowMode: bool, threshold: real)

  datatype Verdict = Disabled | Scored(score: real, isThreat: bool) | IndexPanic

  /** Scores the variants until one reaches the threshold. In shadow mode the first variant is logged,
      which panics when there is none. */
  method DetectAll(config: Config, variants: seq<string>, inference: string -> real) returns (v: Verdict)
    ensures v.Disabled? <==> !config.enabled && !config.shadowMode
    ensures v.IndexPanic? <==> config.shadowMode && variants == []
    ensures v.Scored? && !config.shadowMode ==>
              (v.isThreat <==> config.threshold <= 0.0 || exists x :: x in variants && inference(x) >= config.threshold)
    ensures v.Scored? && config.shadowMode ==> !v.isThreat
    ensures v.Scored? ==>
              v.score >= 0.0 && (v.score == 0.0 || exists x :: x in variants && inference(x) == v.score)
    ensures v.Scored? && (forall x :: x in variants ==> inference(x) < config.threshold) ==>
              forall x :: x in variants ==> inference(x) <= v.score
  {
    if !config.enabled && !config.shadowMode {
      return Disabled;
    }
    var bestScore := 0.0;
    for i := 0 to |variants|
      invariant bestScore >= 0.0
      invariant bestScore == 0.0 || exists x :: x in variants && inference(x) == bestScore
      invariant forall j :: 0 <= j < i ==>
                              inference(variants[j]) <= bestScore && inference(variants[j]) < config.threshold
    {
      var score := inference(variants[i]);
      if score > bestScore {
        bestScore := score;
      }
      if score >= config.threshold {
        break;
      }
    }
    var isThreat := bestScore >= config.threshold;
    if config.shadowMode {
      if variants == [] {
        return IndexPanic;
      }
      isThreat := false;
    }
    return Scored(bestScore, isThreat);
  }
}
