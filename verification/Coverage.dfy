/** The precomputed sets miss nothing the per-word heuristic catches. */
module Coverage {
  import opened Common
  import opened Detector
  import opened Latency

  /** No two words of the list (equal words included) have a form in common. */
  ghost predicate NoSharedForm(words: seq<string>, forms: Disguise) {
    forall i, j :: 0 <= i < j < |words| ==> forms(words[i]) !! forms(words[j])
  }

  lemma {:induction false} CountWithinHits(text: string, words: seq<string>, forms: Disguise)
    requires NoSharedForm(words, forms)
    ensures CountWords(text, words, forms) <= |Hits(text, AllForms(words, forms))|
  {
    if words != [] {
      var n := |words| - 1;
      CountWithinHits(text, words[..n], forms);
      var before, all := Hits(text, AllForms(words[..n], forms)), Hits(text, AllForms(words, forms));
      if AnyIn(text, forms(words[n])) {
        var f :| f in forms(words[n]) && Contains(text, f);
        InAllForms(words[..n], forms, f);
        assert f !in before;
        SubsetSize(before + {f}, all);
      } else {
        SubsetSize(before, all);
      }
    }
  }

  lemma {:induction false} CountLongWithinCount(text: string, words: seq<string>)
    ensures CountWords(text, words, LongTransposedForms) <= CountWords(text, words, TransposedForms)
  {
    if words != [] {
      CountLongWithinCount(text, words[..|words| - 1]);
    }
  }

  /** Whenever no two words share a disguise, a text the heuristic scores at 0.5 or more is flagged by
      the precomputed sets as well. */
  lemma {:induction false} NothingMissed(text: string, words: seq<string>)
    requires NoSharedForm(words, TransposedForms)
    requires NoSharedForm(words, VowelDeletedForms)
    requires NoSharedForm(words, ReversedForms)
    ensures HeuristicSum(text, words) <= Total(text, VariantsOf(words))
    ensures text != "" && Min(CAP, HeuristicSum(text, words)) >= THREAT ==> PureScore(text, VariantsOf(words)).isThreat
  {
    CountLongWithinCount(text, words);
    CountWithinHits(text, words, TransposedForms);
    CountWithinHits(text, words, VowelDeletedForms);
    CountWithinHits(text, words, ReversedForms);
    if text != "" {
      PureScoreMeaning(text, VariantsOf(words));
    }
  }

  // ----- the condition is needed

  ghost predicate FourConsonants(w: string) {
    |w| == 4 && (forall i, j :: 0 <= i < j < 4 ==> w[i] != w[j]) && forall i :: 0 <= i < 4 ==> !IsVowel(w[i])
  }

  lemma {:induction false} SameLengthHit(text: string, f: string)
    requires |f| == |text|
    ensures Contains(text, f) <==> f == text
  {
    assert text[0..|text|] == text;
    if f == text {
      assert OccursAt(text, f, 0);
    }
  }

  lemma {:induction false} NoVowelsToDrop(w: string)
    requires forall i :: 0 <= i < |w| ==> !IsVowel(w[i])
    ensures DropVowels(w) == w
  {
    if |w| > 1 {
      NoVowelsToDrop(w[..|w| - 1]);
    }
  }

  lemma TwiceTheSame(w: string, forms: Disguise)
    ensures AllForms([w, w], forms) == forms(w)
    ensures forall text :: CountWords(text, [w, w], forms) == if AnyIn(text, forms(w)) then 2 else 0
  {
    var once, twice := [w], [w, w];
    assert once[..0] == [] && twice[..1] == once;
    assert AllForms(once, forms) == AllForms([], forms) + forms(w);
    assert AllForms(twice, forms) == AllForms(once, forms) + forms(w);
    forall text ensures CountWords(text, twice, forms) == if AnyIn(text, forms(w)) then 2 else 0 {
      assert CountWords(text, once, forms) == CountWords(text, [], forms) + if AnyIn(text, forms(w)) then 1 else 0;
    }
  }

  /** A word listed twice is enough to miss a text: the heuristic counts it twice, the sets once. */
  lemma {:induction false} SharedFormIsMissed(w: string)
    requires FourConsonants(w)
    ensures HeuristicSum(Transposed(w, 0), [w, w]) >= THREAT
    ensures !PureScore(Transposed(w, 0), VariantsOf([w, w])).isThreat
  {
    var text := Transposed(w, 0);
    TwiceTheSame(w, TransposedForms);
    TwiceTheSame(w, LongTransposedForms);
    TwiceTheSame(w, VowelDeletedForms);
    TwiceTheSame(w, ReversedForms);
    SameLengthHit(text, text);
    assert text in TransposedForms(w);
    OneHit(w);
    PureScoreMeaning(text, VariantsOf([w, w]));
  }

  lemma {:induction false} OneHit(w: string)
    requires FourConsonants(w)
    ensures var text := Transposed(w, 0);
            Hits(text, {w}) == {} && Hits(text, VowelDeletedForms(w)) == {} && Hits(text, ReversedForms(w)) == {}
            && Hits(text, TransposedForms(w)) == {text}
  {
    var text := Transposed(w, 0);
    assert text[0] == w[1];
    SameLengthHit(text, w);
    NoVowelsToDrop(w);
    ReversedAt(w);
    SameLengthHit(text, Reversed(w));
    assert text in TransposedForms(w);
    forall f | f in TransposedForms(w) ensures Contains(text, f) <==> f == text {
      SameLengthHit(text, f);
    }
  }

  // ----- the list the program ships meets the condition

  /** A mark that no disguise changes: the sum of the squared character codes of the consonants. */
  function Mark(word: string): nat {
    MarkTo(word, |word|)
  }

  function MarkTo(word: string, n: nat): nat
    requires n <= |word|
  {
    if n == 0 then 0
    else MarkTo(word, n - 1) + if IsVowel(word[n - 1]) then 0 else word[n - 1] as nat * word[n - 1] as nat
  }

  lemma {:induction false} MarkConcatTo(a: string, b: string, n: nat)
    requires n <= |a| + |b|
    ensures MarkTo(a + b, n) == if n <= |a| then MarkTo(a, n) else Mark(a) + MarkTo(b, n - |a|)
  {
    if n > 0 {
      MarkConcatTo(a, b, n - 1);
    }
  }

  lemma {:induction false} MarkConcat(a: string, b: string)
    ensures Mark(a + b) == Mark(a) + Mark(b)
  {
    MarkConcatTo(a, b, |a| + |b|);
  }

  lemma {:induction false} MarkTransposed(word: string, i: nat)
    requires i + 1 < |word|
    ensures Mark(Transposed(word, i)) == Mark(word)
  {
    var a, x, y, b := word[..i], [word[i]], [word[i + 1]], word[i + 2..];
    assert word == a + x + y + b;
    MarkConcat(a + y + x, b);
    MarkConcat(a + y, x);
    MarkConcat(a, y);
    MarkConcat(a + x + y, b);
    MarkConcat(a + x, y);
    MarkConcat(a, x);
  }

  lemma {:induction false} MarkReversed(word: string)
    ensures Mark(Reversed(word)) == Mark(word)
  {
    if word != "" {
      MarkReversed(word[1..]);
      MarkConcat(Reversed(word[1..]), [word[0]]);
      MarkConcat([word[0]], word[1..]);
      assert word == [word[0]] + word[1..];
    }
  }

  lemma {:induction false} MarkDropVowels(word: string)
    ensures Mark(DropVowels(word)) == Mark(word)
  {
    var n := |word| - 1;
    if n > 0 {
      MarkDropVowels(word[..n]);
      MarkConcat(DropVowels(word[..n]), [word[n]]);
      MarkConcat(word[..n], [word[n]]);
      assert word == word[..n] + [word[n]];
      var last := [word[n]];
      assert MarkTo(last, 1) == MarkTo(last, 0) + if IsVowel(last[0]) then 0 else last[0] as nat * last[0] as nat;
    }
  }

  lemma {:induction false} DifferentMarksNoSharedForm(a: string, b: string)
    requires Mark(a) != Mark(b)
    ensures TransposedForms(a) !! TransposedForms(b)
    ensures VowelDeletedForms(a) !! VowelDeletedForms(b)
    ensures ReversedForms(a) !! ReversedForms(b)
  {
    forall i | 0 <= i < |a| - 1 ensures Mark(Transposed(a, i)) == Mark(a) {
      MarkTransposed(a, i);
    }
    forall i | 0 <= i < |b| - 1 ensures Mark(Transposed(b, i)) == Mark(b) {
      MarkTransposed(b, i);
    }
    MarkDropVowels(a);
    MarkDropVowels(b);
    MarkReversed(a);
    MarkReversed(b);
  }

  const MARKS: seq<nat> := [
    35705, 63239, 49916, 46593, 33981, 66428, 63421, 32066, 52064, 38584,
    64109, 38345, 44493, 35120, 38801, 46052, 34009, 48146, 37869, 61793]

  lemma ShippedMarks0(i: nat)
    requires 0 <= i < 5
    ensures Mark(ATTACK_WORDS[i]) == MARKS[i]
  {
    match i
    case 0 => assert MarkTo("ignore", 6) == 35705;
    case 1 => assert MarkTo("bypass", 6) == 63239;
    case 2 => assert MarkTo("override", 8) == 49916;
    case 3 => assert MarkTo("inject", 6) == 46593;
    case _ => assert MarkTo("admin", 5) == 33981;
  }

  lemma ShippedMarks5(i: nat)
    requires 5 <= i < 10
    ensures Mark(ATTACK_WORDS[i]) == MARKS[i]
  {
    match i
    case 5 => assert MarkTo("system", 6) == 66428;
    case 6 => assert MarkTo("prompt", 6) == 63421;
    case 7 => assert MarkTo("hack", 4) == 32066;
    case 8 => assert MarkTo("exploit", 7) == 52064;
    case _ => assert MarkTo("reveal", 6) == 38584;
  }

  lemma ShippedMarks10(i: nat)
    requires 10 <= i < 15
    ensures Mark(ATTACK_WORDS[i]) == MARKS[i]
  {
    match i
    case 10 => assert MarkTo("extract", 7) == 64109;
    case 11 => assert MarkTo("steal", 5) == 38345;
    case 12 => assert MarkTo("disable", 7) == 44493;
    case 13 => assert MarkTo("delete", 6) == 35120;
    case _ => assert MarkTo("remove", 6) == 38801;
  }

  lemma ShippedMarks15(i: nat)
    requires 15 <= i < 20
    ensures Mark(ATTACK_WORDS[i]) == MARKS[i]
  {
    match i
    case 15 => assert MarkTo("access", 6) == 46052;
    case 16 => assert MarkTo("forge", 5) == 34009;
    case 17 => assert MarkTo("escalate", 8) == 48146;
    case 18 => assert MarkTo("poison", 6) == 37869;
    case _ => assert MarkTo("corrupt", 7) == 61793;
  }

  lemma ShippedMarksDiffer(i: nat, j: nat)
    requires i < j < |ATTACK_WORDS|
    ensures Mark(ATTACK_WORDS[i]) != Mark(ATTACK_WORDS[j])
  {
    forall k | 0 <= k < |ATTACK_WORDS| ensures Mark(ATTACK_WORDS[k]) == MARKS[k] {
      if
      case k < 5 => ShippedMarks0(k);
      case 5 <= k < 10 => ShippedMarks5(k);
      case 10 <= k < 15 => ShippedMarks10(k);
      case 15 <= k => ShippedMarks15(k);
    }
    ListedMarksDiffer(i, j);
  }

  lemma ListedMarksDiffer(i: nat, j: nat)
    requires i < j < |MARKS|
    ensures MARKS[i] != MARKS[j]
  {
  }

  /** The shipped words share no disguise, so for them nothing is missed, whatever the text. */
  lemma {:induction false} ShippedListMissesNothing(text: string)
    ensures HeuristicSum(text, ATTACK_WORDS) <= Total(text, VariantsOf(ATTACK_WORDS))
    ensures text != "" && Min(CAP, HeuristicSum(text, ATTACK_WORDS)) >= THREAT ==>
              PureScore(text, VariantsOf(ATTACK_WORDS)).isThreat
  {
    forall i, j | 0 <= i < j < |ATTACK_WORDS|
      ensures TransposedForms(ATTACK_WORDS[i]) !! TransposedForms(ATTACK_WORDS[j])
      ensures VowelDeletedForms(ATTACK_WORDS[i]) !! VowelDeletedForms(ATTACK_WORDS[j])
      ensures ReversedForms(ATTACK_WORDS[i]) !! ReversedForms(ATTACK_WORDS[j])
    {
      ShippedMarksDiffer(i, j);
      DifferentMarksNoSharedForm(ATTACK_WORDS[i], ATTACK_WORDS[j]);
    }
    NothingMissed(text, ATTACK_WORDS);
  }
}
