/** Where the accelerated detector flags what the rule-based one flags. The two score different readings of a
    text: the rule-based one the prepared text (NFKC, lower case, collapsed, cut), the accelerated one the raw
    text, and that only from 32 bytes on. */
module Agreement {
  import opened Common
  import opened CharNormalizer
  import opened Detector
  import opened Latency
  import Coverage

  /** What the rule-based detector scores. */
  function RuleText(u: Unicode, text: string): string {
    Lower(Prepared(u, text))
  }

  /** What the accelerated detector scores. */
  function RawText(rt: Runtime, text: string): string {
    Lower(rt.decode(text))
  }

  /** The rule-based score of a text reaches 0.5. */
  predicate RuleFlags(u: Unicode, text: string) {
    RuleScore(Encoded(Normalized(u, text)), ATTACK_WORDS) >= THREAT
  }

  function Verdict(rt: Runtime, text: string): ThreatScore {
    VerdictOf(rt, VariantsOf(ATTACK_WORDS), text)
  }

  /** The accelerated detector flags a text exactly when it is long and its own score of the raw text reaches
      0.5. */
  lemma FlaggedIff(rt: Runtime, text: string)
    ensures Verdict(rt, text).isThreat <==>
            && |text| >= FAST_PATH && RawText(rt, text) != ""
            && Total(RawText(rt, text), VariantsOf(ATTACK_WORDS)) >= THREAT
  {
    if RawText(rt, text) != "" {
      PureScoreMeaning(RawText(rt, text), VariantsOf(ATTACK_WORDS));
    }
  }

  // ----- when every disguise in the prepared text is in the raw text

  predicate IsForm(v: Variants, f: string) {
    f in v.attack || f in v.transpositions || f in v.vowelDeleted || f in v.reversed
  }

  ghost predicate Carried(from: string, to: string, v: Variants) {
    forall f :: IsForm(v, f) && Contains(from, f) ==> Contains(to, f)
  }

  lemma CarriedTotal(from: string, to: string, v: Variants)
    requires Carried(from, to, v)
    ensures Total(from, v) <= Total(to, v)
  {
    SubsetSize(Hits(from, v.attack), Hits(to, v.attack));
    SubsetSize(Hits(from, v.transpositions), Hits(to, v.transpositions));
    SubsetSize(Hits(from, v.vowelDeleted), Hits(to, v.vowelDeleted));
    SubsetSize(Hits(from, v.reversed), Hits(to, v.reversed));
  }

  /** Then a text the rule-based detector flags is flagged exactly when it has 32 bytes or more. */
  lemma {:induction false} CarriedFlaggedIffLong(u: Unicode, rt: Runtime, text: string)
    requires RuleFlags(u, text) && Carried(RuleText(u, text), RawText(rt, text), VariantsOf(ATTACK_WORDS))
    ensures Verdict(rt, text).isThreat <==> |text| >= FAST_PATH
  {
    var v := VariantsOf(ATTACK_WORDS);
    Coverage.ShippedListMissesNothing(RuleText(u, text));
    CarriedTotal(RuleText(u, text), RawText(rt, text), v);
    FlaggedIff(rt, text);
    if RawText(rt, text) == "" {
      NoLetterNoHit("");
    }
  }

  // ----- the forms are plain

  /** Letters of the shipped words; there is no z among them. */
  predicate Plain(c: char) {
    'a' <= c <= 'y'
  }

  ghost predicate PlainWord(w: string) {
    w != "" && forall i :: 0 <= i < |w| ==> Plain(w[i])
  }

  lemma ShippedWordsPlain(i: nat)
    requires i < |ATTACK_WORDS|
    ensures PlainWord(ATTACK_WORDS[i])
  {
  }

  lemma {:induction false} DropVowelsPlain(w: string)
    requires PlainWord(w)
    ensures PlainWord(DropVowels(w))
  {
    if |w| > 1 {
      DropVowelsPlain(w[..|w| - 1]);
    }
  }

  lemma {:induction false} FormsPlain(w: string, f: string)
    requires PlainWord(w)
    requires f in TransposedForms(w) || f in VowelDeletedForms(w) || f in ReversedForms(w)
    ensures PlainWord(f)
  {
    DropVowelsPlain(w);
    ReversedAt(w);
  }

  lemma {:induction false} ShippedFormsPlain(f: string)
    requires IsForm(VariantsOf(ATTACK_WORDS), f)
    ensures PlainWord(f)
  {
    InAllForms(ATTACK_WORDS, TransposedForms, f);
    InAllForms(ATTACK_WORDS, VowelDeletedForms, f);
    InAllForms(ATTACK_WORDS, ReversedForms, f);
    if f in VariantsOf(ATTACK_WORDS).attack {
      var i :| 0 <= i < |ATTACK_WORDS| && ATTACK_WORDS[i] == f;
      ShippedWordsPlain(i);
    } else {
      var i :| 0 <= i < |ATTACK_WORDS|
               && (f in TransposedForms(ATTACK_WORDS[i]) || f in VowelDeletedForms(ATTACK_WORDS[i])
                   || f in ReversedForms(ATTACK_WORDS[i]));
      ShippedWordsPlain(i);
      FormsPlain(ATTACK_WORDS[i], f);
    }
  }

  /** Without such a letter a text holds no form. */
  lemma {:induction false} NoLetterNoHit(t: string)
    requires forall i :: 0 <= i < |t| ==> !Plain(t[i])
    ensures Total(t, VariantsOf(ATTACK_WORDS)) == 0
  {
    var v := VariantsOf(ATTACK_WORDS);
    forall f | IsForm(v, f) ensures !Contains(t, f) {
      ShippedFormsPlain(f);
      if i :| 0 <= i <= |t| - |f| && OccursAt(t, f, i) {
        assert t[i..i + |f|][0] == f[0];
      }
    }
    assert Hits(t, v.attack) == {} && Hits(t, v.transpositions) == {};
    assert Hits(t, v.vowelDeleted) == {} && Hits(t, v.reversed) == {};
  }

  // ----- plain ASCII texts

  predicate Ascii(s: seq<nat>) {
    forall i :: 0 <= i < |s| ==> s[i] < 128
  }

  function LowRune(r: nat): nat {
    if 'A' as nat <= r <= 'Z' as nat then r + 32 else r
  }

  function LowRunes(s: seq<nat>): (t: seq<nat>)
    ensures |t| == |s|
  {
    seq(|s|, i requires 0 <= i < |s| => LowRune(s[i]))
  }

  predicate AsciiSpace(u: Unicode) {
    forall r: nat | r < 128 :: u.isSpace(r) <==> 9 <= r <= 13 || r == 32
  }

  /** What is used of Go's libraries: the white space of ASCII, and that NFKC and lower-casing only turn the
      upper-case letters of an ASCII text. */
  ghost predicate Lawful(u: Unicode, rt: Runtime) {
    && AsciiSpace(u)
    && (forall text :: Ascii(rt.decode(text)) ==> u.fold(text) == LowRunes(rt.decode(text)))
  }

  /** A form in a text that came back from the encoding is a word of it. */
  lemma {:induction false} FormIsWord(u: Unicode, runes: seq<nat>, f: string) returns (w: seq<nat>)
    requires AsciiSpace(u) && PlainWord(f) && Contains(Lower(AllShown(runes)), f)
    ensures |w| == |f| && IsWord(u, w) && OccursIn(AllShown(runes), w)
    ensures forall j :: 0 <= j < |f| ==> LowerByte(w[j]) == f[j]
  {
    var s := AllShown(runes);
    var i :| 0 <= i <= |s| - |f| && OccursAt(Lower(s), f, i);
    w := s[i..i + |f|];
    forall j | 0 <= j < |f| ensures LowerByte(w[j]) == f[j] {
      assert Lower(s)[i..i + |f|][j] == f[j];
    }
    assert At(s, w, i);
    LettersAreWord(u, runes[i..i + |f|], w, f);
  }

  lemma LettersAreWord(u: Unicode, runes: seq<nat>, w: seq<nat>, f: string)
    requires AsciiSpace(u) && PlainWord(f) && |runes| == |w| == |f|
    requires forall j :: 0 <= j < |w| ==> w[j] == Shown(runes[j]) && LowerByte(w[j]) == f[j]
    ensures IsWord(u, w)
  {
    forall r | r in w ensures !u.isSpace(r) && Known(r) {
      var j :| 0 <= j < |w| && w[j] == r;
      LetterIsKnown(runes[j], f[j]);
    }
  }

  lemma {:induction false} WordIsForm(raw: seq<nat>, w: seq<nat>, f: string)
    requires |w| == |f| && OccursIn(LowRunes(raw), w) && PlainWord(f)
    requires forall j :: 0 <= j < |f| ==> LowerByte(w[j]) == f[j]
    ensures Contains(Lower(raw), f)
  {
    var k :| 0 <= k <= |raw| - |w| && At(LowRunes(raw), w, k);
    var s := Lower(raw);
    forall j | 0 <= j < |f| ensures s[k..k + |f|][j] == f[j] {
      assert LowRunes(raw)[k + j] == w[j];
      LowTwice(raw[k + j]);
    }
    assert s[k..k + |f|] == f;
    assert OccursAt(s, f, k);
  }

  lemma LowTwice(r: nat)
    ensures LowerByte(LowRune(r)) == LowerByte(r)
  {
  }

  /** A form in the prepared text of an ASCII text was a word before, and so is in the raw text. */
  lemma {:induction false} AsciiCarries(u: Unicode, rt: Runtime, text: string, f: string)
    requires Lawful(u, rt) && Ascii(rt.decode(text)) && PlainWord(f) && Contains(RuleText(u, text), f)
    ensures Contains(RawText(rt, text), f)
  {
    DecodeEncode(Normalized(u, text));
    var w := FormIsWord(u, Normalized(u, text), f);
    WordBeforePreparing(u, text, w);
    WordIsForm(rt.decode(text), w, f);
  }

  lemma LetterIsKnown(r: nat, c: char)
    requires LowerByte(Shown(r)) == c && Plain(c)
    ensures Known(Shown(r)) && Shown(r) < 128 && Shown(r) > 32
  {
  }

  /** An ASCII text that the rule-based detector flags is flagged exactly when it has 32 bytes or more. */
  lemma {:induction false} AsciiFlaggedIffLong(u: Unicode, rt: Runtime, text: string)
    requires Lawful(u, rt) && Ascii(rt.decode(text)) && RuleFlags(u, text)
    ensures Verdict(rt, text).isThreat <==> |text| >= FAST_PATH
  {
    forall f | IsForm(VariantsOf(ATTACK_WORDS), f) && Contains(RuleText(u, text), f)
      ensures Contains(RawText(rt, text), f)
    {
      ShippedFormsPlain(f);
      AsciiCarries(u, rt, text, f);
    }
    CarriedFlaggedIffLong(u, rt, text);
  }

  // ----- two texts that slip through

  function Codes(s: string): (r: seq<nat>)
    ensures |r| == |s|
  {
    seq(|s|, i requires 0 <= i < |s| => s[i] as nat)
  }

  const SHORT_ATTACK := "erongi ignr"
  const WIDE_ATTACK := "erongi ignr."

  /** The same in full-width letters: 10 of three bytes each, a blank and a full stop. */
  const WIDE_RUNES: seq<nat> := [
    0xFF45, 0xFF52, 0xFF4F, 0xFF4E, 0xFF47, 0xFF49, 0x20, 0xFF49, 0xFF47, 0xFF4E, 0xFF52, 0x2E]

  /** "ignore" reversed and "ignore" without vowels, in 11 bytes: flagged by the rules, answered by the fast path. */
  lemma {:induction false} ShortAttackSlips(u: Unicode, rt: Runtime)
    requires AsciiSpace(u) && u.fold(SHORT_ATTACK) == Codes(SHORT_ATTACK)
    ensures RuleFlags(u, SHORT_ATTACK) && !Verdict(rt, SHORT_ATTACK).isThreat
  {
    DisguisesFlagged(u, SHORT_ATTACK, SHORT_ATTACK);
  }

  /** In full-width letters it has 32 bytes and takes no fast path; but only the rule-based detector folds them
      to ASCII, while the other cuts each to its low byte, an upper-case letter. */
  lemma {:induction false} WideAttackSlips(u: Unicode, rt: Runtime, text: string)
    requires AsciiSpace(u) && |text| == 32 && u.fold(text) == Codes(WIDE_ATTACK) && rt.decode(text) == WIDE_RUNES
    ensures RuleFlags(u, text) && |text| >= FAST_PATH && !Verdict(rt, text).isThreat
  {
    DisguisesFlagged(u, text, WIDE_ATTACK);
    WideIsUpperCase();
    NoLetterNoHit(RawText(rt, text));
    FlaggedIff(rt, text);
  }

  lemma WideIsUpperCase()
    ensures forall i :: 0 <= i < |WIDE_RUNES| ==> !Plain(Lower(WIDE_RUNES)[i])
  {
  }

  lemma {:induction false} DisguisesFlagged(u: Unicode, text: string, folded: string)
    requires AsciiSpace(u) && u.fold(text) == Codes(folded)
    requires folded == SHORT_ATTACK || folded == WIDE_ATTACK
    ensures RuleFlags(u, text)
  {
    DisguisesTidy(u, folded);
    TidyIsPrepared(u, text);
    DisguisesScore(folded);
  }

  lemma DisguisesTidy(u: Unicode, folded: string)
    requires AsciiSpace(u) && (folded == SHORT_ATTACK || folded == WIDE_ATTACK)
    ensures var s := Codes(folded);
            Tidy(u, s) && |s| <= MAX_LEN && forall r :: r in s ==> Known(r)
  {
  }

  lemma {:induction false} DisguisesScore(folded: string)
    requires folded == SHORT_ATTACK || folded == WIDE_ATTACK
    ensures Lower(Codes(folded)) == folded && HeuristicSum(folded, ATTACK_WORDS) >= THREAT
  {
    StaysLow(folded);
    assert folded[..11] == SHORT_ATTACK;
    IgnoreScores(folded);
  }

  lemma StaysLow(s: string)
    requires forall i :: 0 <= i < |s| ==> s[i] < '\U{80}' && !('A' <= s[i] <= 'Z')
    ensures Lower(Codes(s)) == s
  {
  }

  lemma {:induction false} IgnoreScores(t: string)
    requires |t| >= 11 && t[..11] == SHORT_ATTACK
    ensures HeuristicSum(t, ATTACK_WORDS) >= THREAT
  {
    IgnoreDisguised(t);
    var words := ATTACK_WORDS;
    AnyCounts(t, words, VowelDeletedForms, 0);
    AnyCounts(t, words, ReversedForms, 0);
    TwoKinds(t, words);
  }

  lemma TwoKinds(t: string, words: seq<string>)
    requires CountWords(t, words, VowelDeletedForms) >= 1 && CountWords(t, words, ReversedForms) >= 1
    ensures HeuristicSum(t, words) >= 6
  {
  }

  lemma {:induction false} AnyCounts(text: string, words: seq<string>, forms: Disguise, i: nat)
    requires i < |words| && AnyIn(text, forms(words[i]))
    ensures CountWords(text, words, forms) >= 1
  {
    if i < |words| - 1 {
      AnyCounts(text, words[..|words| - 1], forms, i);
    }
  }

  lemma {:induction false} IgnoreDisguised(t: string)
    requires |t| >= 11 && t[..11] == SHORT_ATTACK
    ensures AnyIn(t, ReversedForms(ATTACK_WORDS[0])) && AnyIn(t, VowelDeletedForms(ATTACK_WORDS[0]))
  {
    var w := ['i', 'g', 'n', 'o', 'r', 'e'];
    assert ATTACK_WORDS[0] == w;
    forall i | 0 <= i < 11 ensures t[i] == SHORT_ATTACK[i] {
      assert t[..11][i] == t[i];
    }
    ReversedAt(w);
    assert Reversed(w) == t[0..6];
    assert OccursAt(t, Reversed(w), 0);
    DropVowelsAppended(['i'], 'g');
    DropVowelsAppended(['i'] + ['g'], 'n');
    DropVowelsAppended(['i'] + ['g'] + ['n'], 'o');
    DropVowelsAppended(['i'] + ['g'] + ['n'] + ['o'], 'r');
    DropVowelsAppended(['i'] + ['g'] + ['n'] + ['o'] + ['r'], 'e');
    assert w == ['i'] + ['g'] + ['n'] + ['o'] + ['r'] + ['e'];
    assert DropVowels(w) == ['i'] + ['g'] + ['n'] + ['r'] == t[7..11];
    assert OccursAt(t, DropVowels(w), 7);
  }
}
