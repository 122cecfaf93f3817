/** What a normalisation pass keeps of a text: it reads lookalikes as the letters they stand for, and of the rest
    it loses nothing but zero-width characters, white space and separators. */
module Fidelity {
  import opened Common
  import opened Normalize
  import opened Words

  // ----- zero-width characters

  /** Stripping goes character by character. */
  lemma {:induction false} StripConcat(a: string, b: string)
    ensures Strip(a + b) == Strip(a) + Strip(b)
  {
    if b == "" {
      assert a + b == a;
    } else {
      var p, c := b[..|b| - 1], b[|b| - 1];
      assert p + [c] == b && a + p + [c] == a + b;
      StripConcat(a, p);
      StripAppended(a + p, c);
      StripAppended(p, c);
      Associative(Strip(a), Strip(p), [c]);
    }
  }

  lemma StripAppended(s: string, c: char)
    ensures Strip(s + [c]) == if IsZeroWidth(c) then Strip(s) else Strip(s) + [c]
  {
    assert (s + [c])[..|s|] == s;
  }

  lemma StripOne(c: char)
    ensures Strip([c]) == if IsZeroWidth(c) then "" else [c]
  {
    StripAppended("", c);
    assert "" + [c] == [c];
  }

  /** A zero-width character makes no difference, wherever it stands. */
  lemma {:induction false} ZeroWidthInvisible(u: Unicode, a: string, z: char, b: string)
    requires IsZeroWidth(z)
    ensures NormalizeText(u, a + [z] + b) == NormalizeText(u, a + b)
  {
    StripConcat(a + [z], b);
    StripAppended(a, z);
    StripConcat(a, b);
  }

  // ----- the tables

  /** The Cyrillic and Greek lookalikes, and the figures and signs of leet speak. */
  const CYRILLIC := ['\U{0430}', '\U{0410}', '\U{0435}', '\U{0415}', '\U{043E}', '\U{041E}', '\U{0440}', '\U{0420}',
                     '\U{0441}', '\U{0421}', '\U{0445}', '\U{0425}', '\U{0443}', '\U{0423}', '\U{0456}', '\U{0406}',
                     '\U{0458}', '\U{0408}', '\U{0455}', '\U{0405}', '\U{049B}']
  const GREEK := ['\U{03B1}', '\U{0391}', '\U{03B5}', '\U{0395}', '\U{03BF}', '\U{039F}',
                  '\U{03BD}', '\U{039D}', '\U{03C1}', '\U{03A1}', '\U{03C4}', '\U{03A4}']
  const LEET := "@48(3691|!05$72"

  ghost predicate Lowercase(w: string) {
    forall i :: 0 <= i < |w| ==> 'a' <= w[i] <= 'z'
  }

  /** A text that spells a lower-case word in lookalikes is read as that word. */
  lemma {:induction false} LookalikesRead(u: Unicode, s: string, w: string)
    requires Lawful(u) && Lowercase(w) && |s| == |w|
    requires forall i :: 0 <= i < |s| ==> !IsZeroWidth(s[i]) && Leet(Homoglyph(s[i])) == w[i]
    ensures NormalizeText(u, s) == w
  {
    StripNothing(s);
    assert Mapped(s) == w;
    forall i | 0 <= i < |w| ensures !Removable(u, w, i) && !u.isSpace(w[i]) {
      assert u.isLetter(w[i]);
    }
    LettersKept(u, w, |w|);
    CollapsedStays(u, w, |w|);
    assert w[..|w|] == w;
  }

  lemma {:induction false} LettersKept(u: Unicode, s: string, n: nat)
    requires n <= |s| && forall i :: 0 <= i < |s| ==> !Removable(u, s, i)
    ensures Kept(u, s, n) == s[..n]
  {
    if n > 0 {
      LettersKept(u, s, n - 1);
    }
  }

  const CYRILLIC_LETTERS := "aaeeooppccxxyyiijjssq"
  const GREEK_LETTERS := "aaeeoovvpptt"
  const LEET_LETTERS := "aabceggiiiosstz"

  /** A row of lookalikes and the letters they stand for. */
  ghost predicate IsTable(s: string, w: string) {
    || (s == CYRILLIC && w == CYRILLIC_LETTERS)
    || (s == GREEK && w == GREEK_LETTERS)
    || (s == LEET && w == LEET_LETTERS)
  }

  /** Each lookalike is read as its letter ... */
  lemma {:induction false} TablesRead(u: Unicode, s: string, w: string)
    requires Lawful(u) && IsTable(s, w)
    ensures NormalizeText(u, s) == w
  {
    forall i | 0 <= i < |s| ensures !IsZeroWidth(s[i]) && Leet(Homoglyph(s[i])) == w[i] && 'a' <= w[i] <= 'z' {
      if s == CYRILLIC {
        CyrillicLetter(i);
      } else if s == GREEK {
        GreekLetter(i);
      } else {
        LeetLetter(i);
      }
    }
    LookalikesRead(u, s, w);
  }

  lemma CyrillicLetter(i: nat)
    requires i < |CYRILLIC|
    ensures var c, r := CYRILLIC[i], CYRILLIC_LETTERS[i];
            !IsZeroWidth(c) && Homoglyph(c) == r && Leet(r) == r && 'a' <= r <= 'z'
  {
  }

  lemma GreekLetter(i: nat)
    requires i < |GREEK|
    ensures var c, r := GREEK[i], GREEK_LETTERS[i];
            !IsZeroWidth(c) && Homoglyph(c) == r && Leet(r) == r && 'a' <= r <= 'z'
  {
  }

  lemma LeetLetter(i: nat)
    requires i < |LEET|
    ensures var c, r := LEET[i], LEET_LETTERS[i];
            !IsZeroWidth(c) && Homoglyph(c) == c && Leet(c) == r && 'a' <= r <= 'z'
  {
  }

  /** ... and no other character is changed. */
  lemma OthersStay(c: char)
    requires c !in CYRILLIC && c !in GREEK && c !in LEET
    ensures Leet(Homoglyph(c)) == c
  {
    assert forall i :: 0 <= i < |CYRILLIC| ==> CYRILLIC[i] != c;
    assert forall i :: 0 <= i < |GREEK| ==> GREEK[i] != c;
    assert forall i :: 0 <= i < |LEET| ==> LEET[i] != c;
  }

  // ----- nothing else is lost

  /** The characters other than white space and separators, in order. */
  function Core(u: Unicode, s: string): string {
    if s == "" then ""
    else
      var k := |s| - 1;
      if u.isSpace(s[k]) || IsSeparator(s[k]) then Core(u, s[..k]) else Core(u, s[..k]) + [s[k]]
  }

  lemma CoreAppended(u: Unicode, s: string, c: char)
    ensures Core(u, s + [c]) == if u.isSpace(c) || IsSeparator(c) then Core(u, s) else Core(u, s) + [c]
  {
    assert (s + [c])[..|s|] == s;
  }

  lemma {:induction false} CoreKept(u: Unicode, s: string, n: nat)
    requires n <= |s|
    ensures Core(u, Kept(u, s, n)) == Core(u, s[..n])
  {
    if n > 0 {
      CoreKept(u, s, n - 1);
      CoreAppended(u, Kept(u, s, n - 1), s[n - 1]);
      CoreAppended(u, s[..n - 1], s[n - 1]);
      assert s[..n] == s[..n - 1] + [s[n - 1]];
    }
  }

  /** Collapsing white space keeps everything else, separators too. */
  lemma {:induction false} SolidCollapse(u: Unicode, s: string)
    requires Lawful(u)
    ensures Solid(u, Collapse(u, s)) == Solid(u, s)
  {
    if s != "" {
      var p, c := s[..|s| - 1], s[|s| - 1];
      SolidCollapse(u, p);
      assert p + [c] == s;
      SolidAppended(u, p, c);
      var r := Collapse(u, p);
      SolidAppended(u, r, c);
      SolidAppended(u, r, ' ');
      SolidAppended(u, r + " ", c);
    }
  }

  /** The characters other than white space, in order. */
  function Solid(u: Unicode, s: string): string {
    if s == "" then ""
    else
      var k := |s| - 1;
      if u.isSpace(s[k]) then Solid(u, s[..k]) else Solid(u, s[..k]) + [s[k]]
  }

  lemma SolidAppended(u: Unicode, s: string, c: char)
    ensures Solid(u, s + [c]) == if u.isSpace(c) then Solid(u, s) else Solid(u, s) + [c]
  {
    assert (s + [c])[..|s|] == s;
  }

  lemma {:induction false} CoreOfSolid(u: Unicode, s: string)
    ensures Core(u, Solid(u, s)) == Core(u, s)
  {
    if s != "" {
      var p, c := s[..|s| - 1], s[|s| - 1];
      CoreOfSolid(u, p);
      assert p + [c] == s;
      SolidAppended(u, p, c);
      CoreAppended(u, Solid(u, p), c);
      CoreAppended(u, p, c);
    }
  }

  /** What one character of the input adds to the result, separators and white space aside. */
  function Reading(u: Unicode, c: char): string {
    var m := Leet(Homoglyph(c));
    if IsZeroWidth(c) || u.isSpace(m) || IsSeparator(m) then "" else [m]
  }

  function Readings(u: Unicode, s: string): string {
    if s == "" then "" else Readings(u, s[..|s| - 1]) + Reading(u, s[|s| - 1])
  }

  lemma {:induction false} CoreMapped(u: Unicode, s: string)
    ensures Core(u, Mapped(Strip(s))) == Readings(u, s)
  {
    if s != "" {
      var p, c := s[..|s| - 1], s[|s| - 1];
      CoreMapped(u, p);
      if !IsZeroWidth(c) {
        assert Mapped(Strip(s)) == Mapped(Strip(p)) + [Leet(Homoglyph(c))];
        CoreAppended(u, Mapped(Strip(p)), Leet(Homoglyph(c)));
      }
    }
  }

  /** Each character is read on its own, and every reading is in the result, in order. */
  lemma {:induction false} NothingLost(u: Unicode, s: string)
    requires Lawful(u)
    ensures Core(u, NormalizeText(u, s)) == Readings(u, s)
  {
    var y := Mapped(Strip(s));
    var z := RemoveInsertions(u, y);
    CoreMapped(u, s);
    if |y| >= 3 {
      CoreKept(u, y, |y|);
      assert y[..|y|] == y;
    }
    SolidCollapse(u, z);
    CoreOfSolid(u, z);
    CoreOfSolid(u, Collapse(u, z));
  }

  /** Of the separators, the ones removed are exactly those with a letter on either side. */
  lemma {:induction false} KeptCounts(u: Unicode, s: string, n: nat, c: char)
    requires n <= |s|
    ensures multiset(Kept(u, s, n))[c] == |Places(n, StaysAs(u, s, c))|
  {
    if n > 0 {
      KeptCounts(u, s, n - 1, c);
      PlacesGrow(n, StaysAs(u, s, c));
      CountAppended(Kept(u, s, n - 1), s[n - 1], c);
    }
  }

  /** Where `c` stands and is not removed. */
  ghost function StaysAs(u: Unicode, s: string, c: char): int -> bool {
    i => 0 <= i < |s| && s[i] == c && !Removable(u, s, i)
  }

  lemma CountAppended(s: string, x: char, c: char)
    ensures multiset(s + [x])[c] == multiset(s)[c] + if x == c then 1 else 0
  {
  }

  /** Collapsing is splitting at white space and joining with single blanks. */
  lemma {:induction false} CollapseIsJoin(u: Unicode, s: string)
    ensures Collapse(u, s) == Join(Fields(s, u.isSpace), ' ')
  {
    if s != "" {
      var p, c := s[..|s| - 1], s[|s| - 1];
      CollapseIsJoin(u, p);
      assert p + [c] == s;
      JoinFields(p, u.isSpace, ' ', c);
    }
  }
}
