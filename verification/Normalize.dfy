/** Text normalisation: the five stages, and what a second pass does. Texts are valid UTF-8, so a text is its
    sequence of code points. */
module Normalize {
  /** unicode.IsLetter and unicode.IsSpace belong to Go's library. */
  datatype Unicode = Unicode(isLetter: char -> bool, isSpace: char -> bool)

  /** What is used of them. */
  ghost predicate Lawful(u: Unicode) {
    && u.isSpace(' ')
    && (forall c :: u.isSpace(c) ==> !u.isLetter(c))
    && (forall c :: IsSeparator(c) ==> !u.isSpace(c) && !u.isLetter(c))
    && (forall c :: 'a' <= c <= 'z' || 'A' <= c <= 'Z' ==> u.isLetter(c))
  }

  // ----- the tables

  predicate IsZeroWidth(c: char) {
    || c == '\U{00A0}'
    || c == '\U{00AD}'
    || '\U{2000}' <= c <= '\U{200D}'
    || c == '\U{200F}'
    || '\U{2028}' <= c <= '\U{202E}'
    || c == '\U{FEFF}'
  }

  /** Cyrillic and Greek lookalikes. */
  function Homoglyph(c: char): (r: char)
    ensures r == c || 'a' <= r <= 'z'
    ensures c < '\U{80}' ==> r == c
  {
    if c < '\U{80}' then c
    else if c == '\U{0430}' || c == '\U{0410}' || c == '\U{03B1}' || c == '\U{0391}' then 'a'
    else if c == '\U{0435}' || c == '\U{0415}' || c == '\U{03B5}' || c == '\U{0395}' then 'e'
    else if c == '\U{043E}' || c == '\U{041E}' || c == '\U{03BF}' || c == '\U{039F}' then 'o'
    else if c == '\U{0440}' || c == '\U{0420}' || c == '\U{03C1}' || c == '\U{03A1}' then 'p'
    else if c == '\U{0441}' || c == '\U{0421}' then 'c'
    else if c == '\U{0445}' || c == '\U{0425}' then 'x'
    else if c == '\U{0443}' || c == '\U{0423}' then 'y'
    else if c == '\U{0456}' || c == '\U{0406}' then 'i'
    else if c == '\U{0458}' || c == '\U{0408}' then 'j'
    else if c == '\U{0455}' || c == '\U{0405}' then 's'
    else if c == '\U{049B}' then 'q'
    else if c == '\U{03BD}' || c == '\U{039D}' then 'v'
    else if c == '\U{03C4}' || c == '\U{03A4}' then 't'
    else c
  }

  function Leet(c: char): (r: char)
    ensures r == c || 'a' <= r <= 'z'
    ensures 'a' <= c <= 'z' || c >= '\U{80}' || c == ' ' || IsSeparator(c) ==> r == c
  {
    if 'a' <= c <= 'z' then c
    else if c == '@' || c == '4' then 'a'
    else if c == '8' then 'b'
    else if c == '(' then 'c'
    else if c == '3' then 'e'
    else if c == '6' || c == '9' then 'g'
    else if c == '1' || c == '|' || c == '!' then 'i'
    else if c == '0' then 'o'
    else if c == '5' || c == '$' then 's'
    else if c == '7' then 't'
    else if c == '2' then 'z'
    else c
  }

  predicate IsSeparator(c: char) {
    c == '.' || c == '-' || c == '_'
  }

  // ----- the stages

  function Strip(s: string): string {
    if s == "" then ""
    else
      var n := |s| - 1;
      if IsZeroWidth(s[n]) then Strip(s[..n]) else Strip(s[..n]) + [s[n]]
  }

  /** Homoglyphs, then leet speak, letter by letter. */
  function Mapped(s: string): (r: string)
    ensures |r| == |s| && forall i :: 0 <= i < |s| ==> r[i] == Leet(Homoglyph(s[i]))
  {
    seq(|s|, i requires 0 <= i < |s| => Leet(Homoglyph(s[i])))
  }

  /** A separator with a letter on either side. */
  predicate Removable(u: Unicode, s: string, i: int)
    requires 0 <= i < |s|
  {
    IsSeparator(s[i]) && ((i > 0 && u.isLetter(s[i - 1])) || (i < |s| - 1 && u.isLetter(s[i + 1])))
  }

  /** The first `n` letters without the removable separators. */
  function Kept(u: Unicode, s: string, n: nat): string
    requires n <= |s|
  {
    if n == 0 then ""
    else if Removable(u, s, n - 1) then Kept(u, s, n - 1)
    else Kept(u, s, n - 1) + [s[n - 1]]
  }

  function RemoveInsertions(u: Unicode, s: string): string {
    if |s| < 3 then s else Kept(u, s, |s|)
  }

  /** The words of the text, joined by single blanks. */
  function Collapse(u: Unicode, s: string): string {
    if s == "" then ""
    else
      var n := |s| - 1;
      var r := Collapse(u, s[..n]);
      if u.isSpace(s[n]) then r
      else if r != "" && u.isSpace(s[n - 1]) then r + " " + [s[n]]
      else r + [s[n]]
  }

  function NormalizeText(u: Unicode, s: string): string {
    Collapse(u, RemoveInsertions(u, Mapped(Strip(s))))
  }

  method StripZeroWidth(s: string) returns (r: string)
    ensures r == Strip(s)
  {
    r := "";
    for i := 0 to |s|
      invariant r == Strip(s[..i])
    {
      assert s[..i + 1][..i] == s[..i];
      if !IsZeroWidth(s[i]) {
        r := r + [s[i]];
      }
    }
    assert s[..|s|] == s;
  }

  method NormalizeHomoglyphs(s: string) returns (r: string)
    ensures |r| == |s| && forall i :: 0 <= i < |s| ==> r[i] == Homoglyph(s[i])
  {
    r := "";
    for i := 0 to |s|
      invariant |r| == i && forall j :: 0 <= j < i ==> r[j] == Homoglyph(s[j])
    {
      r := r + [Homoglyph(s[i])];
    }
  }

  method DeobfuscateL33t(s: string) returns (r: string)
    ensures |r| == |s| && forall i :: 0 <= i < |s| ==> r[i] == Leet(s[i])
  {
    r := "";
    for i := 0 to |s|
      invariant |r| == i && forall j :: 0 <= j < i ==> r[j] == Leet(s[j])
    {
      r := r + [Leet(s[i])];
    }
  }

  method RemoveInterCharacterInsertions(u: Unicode, s: string) returns (r: string)
    ensures r == RemoveInsertions(u, s)
  {
    if |s| < 3 {
      return s;
    }
    r := "";
    for i := 0 to |s|
      invariant r == Kept(u, s, i)
    {
      if IsSeparator(s[i]) {
        var hasLetterBefore := i > 0 && u.isLetter(s[i - 1]);
        var hasLetterAfter := i < |s| - 1 && u.isLetter(s[i + 1]);
        if hasLetterBefore || hasLetterAfter {
          continue;
        }
      }
      r := r + [s[i]];
    }
  }

  method Normalize(u: Unicode, input: string) returns (result: string)
    ensures result == NormalizeText(u, input)
  {
    result := StripZeroWidth(input);
    result := NormalizeHomoglyphs(result);
    result := DeobfuscateL33t(result);
    assert result == Mapped(Strip(input));
    result := RemoveInterCharacterInsertions(u, result);
    result := Collapse(u, result);
  }

  // ----- what a pass leaves behind

  /** The tables have nothing more to do. */
  ghost predicate Clean(s: string) {
    forall i :: 0 <= i < |s| ==> !IsZeroWidth(s[i]) && Homoglyph(s[i]) == s[i] && Leet(s[i]) == s[i]
  }

  lemma {:induction false} StripClean(s: string)
    ensures forall i :: 0 <= i < |Strip(s)| ==> !IsZeroWidth(Strip(s)[i])
  {
    if s != "" {
      StripClean(s[..|s| - 1]);
    }
  }

  lemma {:induction false} StripNothing(s: string)
    requires forall i :: 0 <= i < |s| ==> !IsZeroWidth(s[i])
    ensures Strip(s) == s
  {
    if s != "" {
      StripNothing(s[..|s| - 1]);
    }
  }

  lemma {:induction false} KeptClean(u: Unicode, s: string, n: nat)
    requires n <= |s| && Clean(s)
    ensures Clean(Kept(u, s, n)) && |Kept(u, s, n)| <= n
    ensures |Kept(u, s, n)| == n ==> Kept(u, s, n) == s[..n]
  {
    if n > 0 {
      KeptClean(u, s, n - 1);
    }
  }

  lemma {:induction false} CollapseClean(u: Unicode, s: string)
    requires Clean(s)
    ensures Clean(Collapse(u, s))
  {
    if s != "" {
      CollapseClean(u, s[..|s| - 1]);
    }
  }

  /** Words with single blanks between them: no space at either end, none next to another, all blank. */
  ghost predicate Collapsed(u: Unicode, s: string) {
    && (s != "" ==> !u.isSpace(s[0]) && !u.isSpace(s[|s| - 1]))
    && (forall i :: 0 <= i < |s| && u.isSpace(s[i]) ==> s[i] == ' ')
    && (forall i :: 0 < i < |s| && u.isSpace(s[i]) ==> !u.isSpace(s[i - 1]))
  }

  lemma {:induction false} CollapseCollapses(u: Unicode, s: string)
    requires Lawful(u)
    ensures Collapsed(u, Collapse(u, s)) && |Collapse(u, s)| <= |s|
    ensures s != "" && !u.isSpace(s[|s| - 1]) ==>
              Collapse(u, s) != "" && Collapse(u, s)[|Collapse(u, s)| - 1] == s[|s| - 1]
    ensures s != "" && u.isSpace(s[|s| - 1]) ==> |Collapse(u, s)| < |s|
  {
    if s != "" {
      CollapseCollapses(u, s[..|s| - 1]);
    }
  }

  lemma {:induction false} CollapsedStays(u: Unicode, s: string, n: nat)
    requires Lawful(u) && Collapsed(u, s) && n <= |s|
    ensures Collapse(u, s[..n]) == if n > 0 && u.isSpace(s[n - 1]) then s[..n - 1] else s[..n]
  {
    if n > 0 {
      CollapsedStays(u, s, n - 1);
      assert s[..n][..n - 1] == s[..n - 1];
    }
  }

  lemma {:induction false} PassCleanAndCollapsed(u: Unicode, s: string)
    requires Lawful(u)
    ensures Clean(NormalizeText(u, s)) && Collapsed(u, NormalizeText(u, s))
  {
    var y := Mapped(Strip(s));
    StripClean(s);
    var z := RemoveInsertions(u, y);
    if |y| >= 3 {
      KeptClean(u, y, |y|);
    }
    CollapseClean(u, z);
    CollapseCollapses(u, z);
  }

  lemma KeptOrShorter(u: Unicode, x: string)
    requires Clean(x)
    ensures RemoveInsertions(u, x) == x || |RemoveInsertions(u, x)| < |x|
  {
    KeptClean(u, x, |x|);
    assert x[..|x|] == x;
  }

  /** On a clean, collapsed text a pass only removes separators, and either nothing or something. */
  lemma {:induction false} PassOnClean(u: Unicode, x: string)
    requires Lawful(u) && Clean(x) && Collapsed(u, x)
    ensures NormalizeText(u, x) == x || |NormalizeText(u, x)| < |x|
    ensures NormalizeText(u, x) == x <==> RemoveInsertions(u, x) == x
  {
    StripNothing(x);
    assert Mapped(x) == x;
    KeptOrShorter(u, x);
    CollapseCollapses(u, RemoveInsertions(u, x));
    CollapsedStays(u, x, |x|);
    assert x[..|x|] == x;
  }

  /** After the first pass every further pass is the identity or strictly shortens the text. */
  lemma {:induction false} LaterPassShrinks(u: Unicode, s: string)
    requires Lawful(u)
    ensures var x := NormalizeText(u, s); NormalizeText(u, x) == x || |NormalizeText(u, x)| < |x|
  {
    PassCleanAndCollapsed(u, s);
    PassOnClean(u, NormalizeText(u, s));
  }

  function Passes(u: Unicode, s: string, k: nat): string {
    if k == 0 then s else NormalizeText(u, Passes(u, s, k - 1))
  }

  /** So repeated passes reach a fixed point, after at most as many more as the first one left letters. */
  lemma {:induction false} PassesSettle(u: Unicode, s: string, k: nat)
    requires Lawful(u) && k > |NormalizeText(u, s)|
    ensures NormalizeText(u, Passes(u, s, k)) == Passes(u, s, k)
  {
    SettledBy(u, s, k);
  }

  lemma {:induction false} SettledBy(u: Unicode, s: string, k: nat)
    requires Lawful(u) && k > 0
    ensures NormalizeText(u, Passes(u, s, k)) == Passes(u, s, k)
            || |Passes(u, s, k)| + k <= |NormalizeText(u, s)| + 1
  {
    if k > 1 {
      SettledBy(u, s, k - 1);
      LaterPassShrinks(u, Passes(u, s, k - 2));
    } else {
      assert Passes(u, s, 1) == NormalizeText(u, Passes(u, s, 0));
    }
  }
}
