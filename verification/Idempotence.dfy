/** When one normalisation pass is enough: exactly which texts a second pass still changes. */
module Idempotence {
  import opened Normalize

  /** A separator and a letter next to each other. */
  predicate Touching(u: Unicode, a: char, b: char) {
    (IsSeparator(a) && u.isLetter(b)) || (u.isLetter(a) && IsSeparator(b))
  }

  predicate TouchingAt(u: Unicode, s: string, i: int)
    requires 0 < i < |s|
  {
    Touching(u, s[i - 1], s[i])
  }

  predicate AnyTouching(u: Unicode, s: string) {
    exists i :: 0 < i < |s| && TouchingAt(u, s, i)
  }

  lemma {:induction false} TouchingIsRemovable(u: Unicode, s: string)
    requires Lawful(u)
    ensures AnyTouching(u, s) <==> exists i :: 0 <= i < |s| && Removable(u, s, i)
  {
    if i :| 0 < i < |s| && TouchingAt(u, s, i) {
      assert Removable(u, s, i - 1) || Removable(u, s, i);
    }
    if i :| 0 <= i < |s| && Removable(u, s, i) {
      assert TouchingAt(u, s, if i > 0 && u.isLetter(s[i - 1]) then i else i + 1);
    }
  }

  /** Collapsing white space neither makes nor breaks such a pair. */
  lemma {:induction false} CollapseTouching(u: Unicode, s: string)
    requires Lawful(u)
    ensures AnyTouching(u, Collapse(u, s)) <==> AnyTouching(u, s)
  {
    if s != "" {
      var n := |s| - 1;
      CollapseTouching(u, s[..n]);
      CollapseCollapses(u, s[..n]);
      TouchingAppended(u, s[..n], s[n]);
      assert s[..n] + [s[n]] == s;
      if !u.isSpace(s[n]) {
        WordTouching(u, Collapse(u, s[..n]), n > 0 && u.isSpace(s[n - 1]), s[n]);
      }
    }
  }

  lemma {:induction false} WordTouching(u: Unicode, r: string, spaced: bool, c: char)
    requires Lawful(u)
    ensures AnyTouching(u, if r != "" && spaced then r + " " + [c] else r + [c])
            <==> AnyTouching(u, r) || (r != "" && !spaced && Touching(u, r[|r| - 1], c))
  {
    if r != "" && spaced {
      TouchingAppended(u, r, ' ');
      TouchingAppended(u, r + " ", c);
    } else {
      TouchingAppended(u, r, c);
    }
  }

  lemma TouchingAppended(u: Unicode, r: string, c: char)
    ensures AnyTouching(u, r + [c]) <==> AnyTouching(u, r) || (r != "" && Touching(u, r[|r| - 1], c))
  {
    if i :| 0 < i < |r| && TouchingAt(u, r, i) {
      assert TouchingAt(u, r + [c], i);
    }
    if i :| 0 < i < |r| + 1 && TouchingAt(u, r + [c], i) {
      assert i < |r| ==> TouchingAt(u, r, i);
    }
    if r != "" && Touching(u, r[|r| - 1], c) {
      assert TouchingAt(u, r + [c], |r|);
    }
  }

  lemma {:induction false} KeepsAll(u: Unicode, s: string, n: nat)
    requires n <= |s| && forall i :: 0 <= i < n ==> !Removable(u, s, i)
    ensures Kept(u, s, n) == s[..n]
  {
    if n > 0 {
      KeepsAll(u, s, n - 1);
    }
  }

  lemma {:induction false} KeepsFewer(u: Unicode, s: string, n: nat)
    requires n <= |s|
    ensures |Kept(u, s, n)| <= n
    ensures (exists i :: 0 <= i < n && Removable(u, s, i)) ==> |Kept(u, s, n)| < n
  {
    if n > 0 {
      KeepsFewer(u, s, n - 1);
    }
  }

  lemma {:induction false} RemovesNothing(u: Unicode, s: string)
    requires Lawful(u)
    ensures RemoveInsertions(u, s) == s <==> |s| < 3 || !AnyTouching(u, s)
  {
    TouchingIsRemovable(u, s);
    if AnyTouching(u, s) {
      KeepsFewer(u, s, |s|);
    } else {
      KeepsAll(u, s, |s|);
      assert s[..|s|] == s;
    }
  }

  /** A separator that stays, next to one that goes because of the letter on its other side. */
  predicate StrandedAt(u: Unicode, s: string, i: int)
    requires 0 <= i < |s|
  {
    IsSeparator(s[i]) && !Removable(u, s, i)
    && ((i >= 2 && IsSeparator(s[i - 1]) && u.isLetter(s[i - 2]))
        || (i + 2 < |s| && IsSeparator(s[i + 1]) && u.isLetter(s[i + 2])))
  }

  predicate Stranded(u: Unicode, s: string) {
    exists i :: 0 <= i < |s| && StrandedAt(u, s, i)
  }

  /** Where the second of two letters made neighbours by a removal sits. */
  predicate JoinedAt(u: Unicode, s: string, j: int)
    requires 0 <= j < |s|
  {
    j >= 2 && IsSeparator(s[j - 1])
    && ((u.isLetter(s[j]) && IsSeparator(s[j - 2]) && !Removable(u, s, j - 2))
        || (IsSeparator(s[j]) && !Removable(u, s, j) && u.isLetter(s[j - 2])))
  }

  lemma JoinedIsStranded(u: Unicode, s: string)
    requires Lawful(u)
    ensures Stranded(u, s) <==> exists j :: 0 <= j < |s| && JoinedAt(u, s, j)
  {
    if i :| 0 <= i < |s| && StrandedAt(u, s, i) {
      assert JoinedAt(u, s, if i >= 2 && IsSeparator(s[i - 1]) && u.isLetter(s[i - 2]) then i else i + 2);
    }
    if j :| 0 <= j < |s| && JoinedAt(u, s, j) {
      assert StrandedAt(u, s, if u.isLetter(s[j]) then j - 2 else j);
    }
  }

  /** The last letter kept from the first `n`: the last of them, or across one or two removed separators. */
  lemma {:induction false} LastKept(u: Unicode, s: string, n: nat)
    requires Lawful(u) && 0 < n <= |s|
    ensures var r := Kept(u, s, n);
            if !Removable(u, s, n - 1) then r != "" && r[|r| - 1] == s[n - 1]
            else if n >= 2 && !Removable(u, s, n - 2) then r != "" && r[|r| - 1] == s[n - 2]
            else if n >= 3 then r != "" && r[|r| - 1] == s[n - 3] && u.isLetter(s[n - 3]) && n < |s| && u.isLetter(s[n])
            else r == ""
  {
    if n >= 2 && Removable(u, s, n - 1) {
      assert Kept(u, s, n) == Kept(u, s, n - 1);
      if n >= 3 && Removable(u, s, n - 2) {
        assert Kept(u, s, n - 1) == Kept(u, s, n - 2);
        assert u.isLetter(s[n - 3]) && !Removable(u, s, n - 3);
        assert Kept(u, s, n - 2) == Kept(u, s, n - 3) + [s[n - 3]];
      }
    }
  }

  /** So a kept letter touches its new left neighbour exactly where a removal joined the two. */
  lemma {:induction false} JoinedIsTouching(u: Unicode, s: string, n: nat)
    requires Lawful(u) && n < |s| && !Removable(u, s, n)
    ensures JoinedAt(u, s, n) <==>
            Kept(u, s, n) != "" && Touching(u, Kept(u, s, n)[|Kept(u, s, n)| - 1], s[n])
  {
    if n > 0 {
      LastKept(u, s, n);
    }
  }

  lemma {:induction false} KeptTouching(u: Unicode, s: string, n: nat)
    requires Lawful(u) && n <= |s|
    ensures AnyTouching(u, Kept(u, s, n)) <==> exists j :: 0 <= j < n && JoinedAt(u, s, j)
  {
    if n > 0 {
      KeptTouching(u, s, n - 1);
      var joined := JoinedAt(u, s, n - 1);
      assert (exists j :: 0 <= j < n && JoinedAt(u, s, j))
             <==> joined || exists j :: 0 <= j < n - 1 && JoinedAt(u, s, j);
      if Removable(u, s, n - 1) {
        assert !joined;
      } else {
        JoinedIsTouching(u, s, n - 1);
        TouchingAppended(u, Kept(u, s, n - 1), s[n - 1]);
      }
    }
  }

  // ----- a stranded separator with one letter and nothing else

  /** One letter and separators, so short that a pass leaves two characters. */
  predicate LoneWord(u: Unicode, w: string) {
    if |w| == 3 then
      || (u.isLetter(w[0]) && IsSeparator(w[1]) && IsSeparator(w[2]))
      || (IsSeparator(w[0]) && IsSeparator(w[1]) && u.isLetter(w[2]))
    else
      && |w| == 4 && IsSeparator(w[0]) && IsSeparator(w[3])
      && ((u.isLetter(w[1]) && IsSeparator(w[2])) || (IsSeparator(w[1]) && u.isLetter(w[2])))
  }

  /** Outside the positions from `a` up to `b` there is only white space. */
  predicate BlankAround(u: Unicode, s: string, a: nat, b: nat)
    requires a <= b <= |s|
  {
    forall i :: 0 <= i < |s| && (i < a || b <= i) ==> u.isSpace(s[i])
  }

  /** Cut at both ends to the first and last character that is not white space, the text is such a word. */
  predicate LoneLetter(u: Unicode, s: string) {
    exists a, b :: 0 <= a <= b <= |s| && BlankAround(u, s, a, b) && LoneWord(u, s[a..b])
  }

  /** What a pass leaves of the first `n` characters. */
  function Left(u: Unicode, s: string, n: nat): string
    requires n <= |s|
  {
    Collapse(u, Kept(u, s, n))
  }

  lemma CollapseAppended(u: Unicode, z: string, c: char)
    ensures Collapse(u, z + [c]) ==
            if u.isSpace(c) then Collapse(u, z)
            else if Collapse(u, z) != "" && u.isSpace(z[|z| - 1]) then Collapse(u, z) + " " + [c]
            else Collapse(u, z) + [c]
  {
    assert (z + [c])[..|z|] == z;
  }

  lemma LeftBlank(u: Unicode, s: string, n: nat)
    requires Lawful(u) && n < |s| && u.isSpace(s[n])
    ensures Left(u, s, n + 1) == Left(u, s, n)
  {
    CollapseAppended(u, Kept(u, s, n), s[n]);
  }

  lemma {:induction false} LeftBlanks(u: Unicode, s: string, n: nat, m: nat)
    requires Lawful(u) && n <= m <= |s| && forall i :: n <= i < m ==> u.isSpace(s[i])
    ensures Left(u, s, m) == Left(u, s, n)
  {
    if n < m {
      LeftBlanks(u, s, n, m - 1);
      LeftBlank(u, s, m - 1);
    }
  }

  /** A character that stays is put behind what is left so far, when no blank comes between. */
  lemma LeftKept(u: Unicode, s: string, n: nat)
    requires n < |s| && !Removable(u, s, n) && !u.isSpace(s[n])
    requires Left(u, s, n) == "" || !u.isSpace(Kept(u, s, n)[|Kept(u, s, n)| - 1])
    ensures Left(u, s, n + 1) == Left(u, s, n) + [s[n]]
    ensures Kept(u, s, n + 1)[|Kept(u, s, n + 1)| - 1] == s[n]
  {
    CollapseAppended(u, Kept(u, s, n), s[n]);
  }

  lemma {:induction false} LoneLetterIsShort(u: Unicode, s: string)
    requires Lawful(u) && LoneLetter(u, s)
    ensures |Left(u, s, |s|)| == 2
  {
    var a: nat, b: nat :| a <= b <= |s| && BlankAround(u, s, a, b) && LoneWord(u, s[a..b]);
    var w := s[a..b];
    assert forall i :: 0 <= i < |w| ==> s[a + i] == w[i];
    LeftBlanks(u, s, 0, a);
    LeftBlanks(u, s, b, |s|);
    LoneWordIsShort(u, s, a, b);
  }

  lemma {:induction false} LoneWordIsShort(u: Unicode, s: string, a: nat, b: nat)
    requires Lawful(u) && a <= b <= |s| && BlankAround(u, s, a, b) && LoneWord(u, s[a..b])
    requires Left(u, s, a) == ""
    ensures |Left(u, s, b)| == 2
  {
    var w := s[a..b];
    assert s[a] == w[0] && s[a + 1] == w[1] && s[a + 2] == w[2];
    assert |w| == 4 ==> s[a + 3] == w[3];
    assert a > 0 ==> u.isSpace(s[a - 1]);
    assert b < |s| ==> u.isSpace(s[b]);
    var first := if Removable(u, s, a) then a + 1 else a;
    KeepDropKeep(u, s, first);
  }

  lemma KeepDropKeep(u: Unicode, s: string, n: nat)
    requires Lawful(u) && n + 2 < |s| && Left(u, s, n) == "" && Removable(u, s, n + 1)
    requires !Removable(u, s, n) && !u.isSpace(s[n]) && !Removable(u, s, n + 2) && !u.isSpace(s[n + 2])
    ensures |Left(u, s, n + 3)| == 2
  {
    LeftKept(u, s, n);
    assert Kept(u, s, n + 2) == Kept(u, s, n + 1);
    LeftKept(u, s, n + 2);
  }

  // how many characters other than white space a pass keeps

  predicate Stays(u: Unicode, s: string, i: int)
    requires 0 <= i < |s|
  {
    !Removable(u, s, i) && !u.isSpace(s[i])
  }

  function Staying(u: Unicode, s: string, n: nat): nat
    requires n <= |s|
  {
    if n == 0 then 0 else if Stays(u, s, n - 1) then Staying(u, s, n - 1) + 1 else Staying(u, s, n - 1)
  }

  lemma {:induction false} LeftHoldsStaying(u: Unicode, s: string, n: nat)
    requires n <= |s|
    ensures |Left(u, s, n)| >= Staying(u, s, n)
  {
    if n > 0 {
      LeftHoldsStaying(u, s, n - 1);
      CollapseAppended(u, Kept(u, s, n - 1), s[n - 1]);
    }
  }

  lemma {:induction false} StayingGrows(u: Unicode, s: string, n: nat, m: nat)
    requires n <= m <= |s|
    ensures Staying(u, s, n) <= Staying(u, s, m)
  {
    if n < m {
      StayingGrows(u, s, n, m - 1);
    }
  }

  lemma ThreeStaying(u: Unicode, s: string, p: nat, q: nat, r: nat)
    requires p < q < r < |s| && Stays(u, s, p) && Stays(u, s, q) && Stays(u, s, r)
    ensures |Left(u, s, |s|)| >= 3
  {
    StayingGrows(u, s, p + 1, q);
    StayingGrows(u, s, q + 1, r);
    StayingGrows(u, s, r + 1, |s|);
    LeftHoldsStaying(u, s, |s|);
  }

  /** When two staying characters are all there is, a third position is blank or a separator next to one
      of them. */
  lemma OnlyTwoStay(u: Unicode, s: string, p: nat, q: nat, i: nat)
    requires Lawful(u) && p < q < |s| && Stays(u, s, p) && Stays(u, s, q) && |Left(u, s, |s|)| < 3
    requires i < |s| && i != p && i != q && !u.isSpace(s[i])
    ensures IsSeparator(s[i])
    ensures (i + 1 == p && u.isLetter(s[p])) || (i == p + 1 && u.isLetter(s[p]))
            || (i + 1 == q && u.isLetter(s[q])) || (i == q + 1 && u.isLetter(s[q]))
  {
    NoThird(u, s, p, q, i);
    var l := if i > 0 && u.isLetter(s[i - 1]) then i - 1 else i + 1;
    if l != p && l != q {
      NoThird(u, s, p, q, l);
    }
  }

  lemma NoThird(u: Unicode, s: string, p: nat, q: nat, i: nat)
    requires p < q < |s| && Stays(u, s, p) && Stays(u, s, q) && |Left(u, s, |s|)| < 3
    requires i < |s| && i != p && i != q
    ensures !Stays(u, s, i)
  {
    if Stays(u, s, i) {
      if i < p {
        ThreeStaying(u, s, i, p, q);
      } else if i < q {
        ThreeStaying(u, s, p, i, q);
      } else {
        ThreeStaying(u, s, p, q, i);
      }
    }
  }

  lemma {:induction false} ShortIsLoneLetter(u: Unicode, s: string)
    requires Lawful(u) && Stranded(u, s) && |Left(u, s, |s|)| < 3
    ensures LoneLetter(u, s)
  {
    var i: nat :| i < |s| && StrandedAt(u, s, i);
    if i >= 2 && IsSeparator(s[i - 1]) && u.isLetter(s[i - 2]) {
      ShortAfterLetter(u, s, i);
    } else {
      ShortBeforeLetter(u, s, i);
    }
  }

  lemma {:induction false} ShortAfterLetter(u: Unicode, s: string, i: nat)
    requires Lawful(u) && 2 <= i < |s| && |Left(u, s, |s|)| < 3
    requires IsSeparator(s[i]) && !Removable(u, s, i) && IsSeparator(s[i - 1]) && u.isLetter(s[i - 2])
    ensures LoneLetter(u, s)
  {
    var a := if i >= 3 && !u.isSpace(s[i - 3]) then i - 3 else i - 2;
    forall j | 0 <= j < |s| && j != i && j != i - 2 && !u.isSpace(s[j])
      ensures IsSeparator(s[j]) && (j == i - 1 || j == i - 3)
    {
      OnlyTwoStay(u, s, i - 2, i, j);
    }
    assert BlankAround(u, s, a, i + 1) && LoneWord(u, s[a..i + 1]);
  }

  lemma {:induction false} ShortBeforeLetter(u: Unicode, s: string, i: nat)
    requires Lawful(u) && i + 2 < |s| && |Left(u, s, |s|)| < 3
    requires IsSeparator(s[i]) && !Removable(u, s, i) && IsSeparator(s[i + 1]) && u.isLetter(s[i + 2])
    ensures LoneLetter(u, s)
  {
    var b := if i + 3 < |s| && !u.isSpace(s[i + 3]) then i + 4 else i + 3;
    forall j | 0 <= j < |s| && j != i && j != i + 2 && !u.isSpace(s[j])
      ensures IsSeparator(s[j]) && (j == i + 1 || j == i + 3)
    {
      OnlyTwoStay(u, s, i, i + 2, j);
    }
    assert BlankAround(u, s, i, b) && LoneWord(u, s[i..b]);
  }

  // ----- the condition

  /** A second pass changes nothing exactly when the mapped text strands no separator, or is, between
      white space, one letter with a few separators. (The program's comments call the pass idempotent on
      every text; NotIdempotent below shows it is not.) */
  lemma {:induction false} IdempotentIff(u: Unicode, s: string)
    requires Lawful(u)
    ensures NormalizeText(u, NormalizeText(u, s)) == NormalizeText(u, s)
            <==> !Stranded(u, Mapped(Strip(s))) || LoneLetter(u, Mapped(Strip(s)))
  {
    var y, x := Mapped(Strip(s)), NormalizeText(u, s);
    IdempotentIfShort(u, s);
    if |y| >= 3 {
      if Stranded(u, y) && |x| < 3 {
        ShortIsLoneLetter(u, y);
      }
      if LoneLetter(u, y) {
        LoneLetterIsShort(u, y);
      }
    }
  }

  lemma {:induction false} IdempotentIfShort(u: Unicode, s: string)
    requires Lawful(u)
    ensures NormalizeText(u, NormalizeText(u, s)) == NormalizeText(u, s)
            <==> !Stranded(u, Mapped(Strip(s))) || |NormalizeText(u, s)| < 3
  {
    var y, x := Mapped(Strip(s)), NormalizeText(u, s);
    PassCleanAndCollapsed(u, s);
    PassOnClean(u, x);
    RemovesNothing(u, x);
    CollapseTouching(u, RemoveInsertions(u, y));
    if |y| >= 3 {
      KeptTouching(u, y, |y|);
      JoinedIsStranded(u, y);
    } else {
      CollapseCollapses(u, y);
    }
  }

  /** In particular one pass is enough when no two separators are neighbours. */
  lemma {:induction false} SingleSeparatorsSettle(u: Unicode, s: string)
    requires Lawful(u)
    requires forall i :: 0 < i < |Strip(s)| ==> !IsSeparator(Strip(s)[i - 1]) || !IsSeparator(Strip(s)[i])
    ensures NormalizeText(u, NormalizeText(u, s)) == NormalizeText(u, s)
  {
    var t, y := Strip(s), Mapped(Strip(s));
    assert forall i :: 0 <= i < |y| ==> (IsSeparator(y[i]) <==> IsSeparator(t[i]));
    forall i | 0 <= i < |y| ensures !StrandedAt(u, y, i) {
      assert i > 0 ==> !IsSeparator(t[i - 1]) || !IsSeparator(t[i]);
      assert i + 1 < |t| ==> !IsSeparator(t[i + 1 - 1]) || !IsSeparator(t[i + 1]);
    }
    IdempotentIff(u, s);
  }

  /** Three separators between two letters: the middle one stays behind, and goes in the second pass. */
  lemma {:induction false} NotIdempotent(u: Unicode, a: char, b: char, d: char)
    requires Lawful(u) && IsSeparator(d) && Clean([a, b]) && u.isLetter(a) && u.isLetter(b)
    ensures NormalizeText(u, [a, d, d, d, b]) == [a, d, b] && NormalizeText(u, [a, d, b]) == [a, b]
  {
    var s, x := [a, d, d, d, b], [a, d, b];
    assert Clean(s) && Clean(x) by {
      assert [a, b][0] == a && [a, b][1] == b;
    }
    PlainPass(u, s);
    PlainPass(u, x);
    KeptMiddle(u, s);
    KeptPair(u, x);
  }

  lemma {:induction false} KeptMiddle(u: Unicode, s: string)
    requires Lawful(u) && |s| == 5 && u.isLetter(s[0]) && u.isLetter(s[4])
    requires IsSeparator(s[1]) && IsSeparator(s[2]) && IsSeparator(s[3])
    ensures Kept(u, s, 5) == [s[0], s[2], s[4]]
  {
    assert Removable(u, s, 1) && Removable(u, s, 3);
    assert Kept(u, s, 2) == Kept(u, s, 1) == [s[0]];
    assert Kept(u, s, 4) == Kept(u, s, 3) == [s[0], s[2]];
  }

  lemma {:induction false} KeptPair(u: Unicode, s: string)
    requires Lawful(u) && |s| == 3 && u.isLetter(s[0]) && IsSeparator(s[1]) && u.isLetter(s[2])
    ensures Kept(u, s, 3) == [s[0], s[2]]
  {
    assert Kept(u, s, 2) == Kept(u, s, 1) == [s[0]];
  }

  /** On a clean text without white space a pass is just the removal of separators. */
  lemma {:induction false} PlainPass(u: Unicode, s: string)
    requires Lawful(u) && Clean(s) && |s| >= 3 && forall i :: 0 <= i < |s| ==> !u.isSpace(s[i])
    ensures NormalizeText(u, s) == Kept(u, s, |s|)
  {
    StripNothing(s);
    assert Mapped(s) == s;
    KeptPlain(u, s, |s|);
    var z := Kept(u, s, |s|);
    CollapsedStays(u, z, |z|);
    assert z[..|z|] == z;
  }

  lemma {:induction false} KeptPlain(u: Unicode, s: string, n: nat)
    requires n <= |s| && forall i :: 0 <= i < |s| ==> !u.isSpace(s[i])
    ensures forall i :: 0 <= i < |Kept(u, s, n)| ==> !u.isSpace(Kept(u, s, n)[i])
  {
    if n > 0 {
      KeptPlain(u, s, n - 1);
    }
  }
}
