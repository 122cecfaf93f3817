/** What the rule-based detector makes of a text before it scores it: normalised, cut to 256 characters,
    encoded as character numbers, and decoded again. Texts are byte strings, characters their code points. */
module CharNormalizer {
  import opened Words

  const MAX_LEN := 256
  const PAD := 0
  const UNK := 1
  const REPLACEMENT := 0xFFFD

  /** NFKC and lower-casing (`fold`) and unicode.IsSpace belong to Go's libraries. */
  datatype Unicode = Unicode(fold: string -> seq<nat>, isSpace: nat -> bool)

  // ----- normalising

  function TrimLeft(u: Unicode, s: seq<nat>): seq<nat> {
    if s != [] && u.isSpace(s[0]) then TrimLeft(u, s[1..]) else s
  }

  function TrimRight(u: Unicode, s: seq<nat>): seq<nat> {
    if s != [] && u.isSpace(s[|s| - 1]) then TrimRight(u, s[..|s| - 1]) else s
  }

  /** Each stretch of white space as one blank. */
  function Collapse(u: Unicode, s: seq<nat>): seq<nat> {
    if s == [] then []
    else
      var k := |s| - 1;
      var r := Collapse(u, s[..k]);
      if !u.isSpace(s[k]) then r + [s[k]]
      else if k > 0 && u.isSpace(s[k - 1]) then r
      else r + [' ' as nat]
  }

  function Truncate(s: seq<nat>): (r: seq<nat>)
    ensures r <= s && |r| == if |s| > MAX_LEN then MAX_LEN else |s|
  {
    if |s| > MAX_LEN then s[..MAX_LEN] else s
  }

  function Normalized(u: Unicode, text: string): seq<nat> {
    Truncate(Collapse(u, TrimRight(u, TrimLeft(u, u.fold(text)))))
  }

  method Normalize(u: Unicode, text: string) returns (runes: seq<nat>)
    ensures runes == Normalized(u, text)
  {
    var trimmed := TrimRight(u, TrimLeft(u, u.fold(text)));
    runes := [];
    var prevSpace := false;
    for i := 0 to |trimmed|
      invariant runes == Collapse(u, trimmed[..i]) && prevSpace == (i > 0 && u.isSpace(trimmed[i - 1]))
    {
      assert trimmed[..i + 1][..i] == trimmed[..i];
      if u.isSpace(trimmed[i]) {
        if !prevSpace {
          runes := runes + [' ' as nat];
        }
        prevSpace := true;
      } else {
        runes := runes + [trimmed[i]];
        prevSpace := false;
      }
    }
    assert trimmed[..|trimmed|] == trimmed;
    if |runes| > MAX_LEN {
      runes := runes[..MAX_LEN];
    }
  }

  // ----- encoding and decoding

  /** Printable ASCII and the Latin-1 supplement. */
  predicate Known(r: nat) {
    32 <= r <= 126 || 128 <= r <= 255
  }

  function Id(r: nat): nat {
    if Known(r) then r else UNK
  }

  function Encoded(runes: seq<nat>): (ids: seq<nat>)
    ensures |ids| == MAX_LEN
  {
    seq(MAX_LEN, i requires 0 <= i < MAX_LEN => if i < |runes| then Id(runes[i]) else PAD)
  }

  method Encode(u: Unicode, text: string) returns (ids: seq<nat>)
    ensures ids == Encoded(Normalized(u, text))
  {
    var runes := Normalize(u, text);
    var result := new nat[MAX_LEN](_ => PAD);
    for i := 0 to |runes|
      invariant |runes| <= MAX_LEN
      invariant forall j :: 0 <= j < MAX_LEN ==> result[j] == if j < i then Id(runes[j]) else PAD
    {
      result[i] := if Known(runes[i]) then runes[i] else UNK;
    }
    ids := result[..];
  }

  function Decoded(ids: seq<nat>): seq<nat> {
    if ids == [] then []
    else
      var k := |ids| - 1;
      var r := Decoded(ids[..k]);
      if ids[k] == PAD then r
      else if ids[k] == UNK then r + [REPLACEMENT]
      else if Known(ids[k]) then r + [ids[k]]
      else r
  }

  method Decode(ids: seq<nat>) returns (runes: seq<nat>)
    ensures runes == Decoded(ids)
  {
    runes := [];
    for i := 0 to |ids|
      invariant runes == Decoded(ids[..i])
    {
      assert ids[..i + 1][..i] == ids[..i];
      if ids[i] == PAD {
        continue;
      }
      if ids[i] == UNK {
        runes := runes + [REPLACEMENT];
        continue;
      }
      if Known(ids[i]) {
        runes := runes + [ids[i]];
      }
    }
    assert ids[..|ids|] == ids;
  }

  // ----- what comes back

  /** A character as it comes back from the encoding. */
  function Shown(r: nat): nat {
    if Known(r) then r else REPLACEMENT
  }

  function AllShown(runes: seq<nat>): (s: seq<nat>)
    ensures |s| == |runes|
  {
    seq(|runes|, i requires 0 <= i < |runes| => Shown(runes[i]))
  }

  lemma {:induction false} DecodedUpTo(runes: seq<nat>, n: nat)
    requires n <= MAX_LEN
    ensures Decoded(Encoded(runes)[..n]) == AllShown(if n <= |runes| then runes[..n] else runes)
  {
    if n > 0 {
      DecodedUpTo(runes, n - 1);
      assert Encoded(runes)[..n][..n - 1] == Encoded(runes)[..n - 1];
      if n <= |runes| {
        assert AllShown(runes[..n]) == AllShown(runes[..n - 1]) + [Shown(runes[n - 1])];
      } else {
        assert n - 1 == |runes| ==> runes[..n - 1] == runes;
      }
    }
  }

  /** Decoding undoes encoding, up to characters the encoding does not know. */
  lemma {:induction false} DecodeEncode(runes: seq<nat>)
    requires |runes| <= MAX_LEN
    ensures Decoded(Encoded(runes)) == AllShown(runes)
  {
    DecodedUpTo(runes, MAX_LEN);
    assert Encoded(runes)[..MAX_LEN] == Encoded(runes);
    assert |runes| == MAX_LEN ==> runes[..MAX_LEN] == runes;
  }

  /** A text survives the encoding exactly when it is of printable ASCII, of the upper half of Latin-1 and its
      controls, and of replacement characters. */
  lemma {:induction false} ComesBackIff(runes: seq<nat>)
    requires |runes| <= MAX_LEN
    ensures Decoded(Encoded(runes)) == runes <==>
            forall i :: 0 <= i < |runes| ==> 32 <= runes[i] <= 126 || 128 <= runes[i] <= 255 || runes[i] == 0xFFFD
  {
    DecodeEncode(runes);
    assert forall i :: 0 <= i < |runes| ==> AllShown(runes)[i] == Shown(runes[i]);
  }

  /** The characters the rule-based detector scores. */
  function Prepared(u: Unicode, text: string): seq<nat> {
    Decoded(Encoded(Normalized(u, text)))
  }

  // ----- a text that is in order already

  /** No white space but single blanks inside. */
  ghost predicate Tidy(u: Unicode, s: seq<nat>) {
    && (s != [] ==> !u.isSpace(s[0]) && !u.isSpace(s[|s| - 1]))
    && (forall i :: 0 <= i < |s| && u.isSpace(s[i]) ==> s[i] == ' ' as nat)
    && (forall i :: 0 < i < |s| && u.isSpace(s[i]) ==> !u.isSpace(s[i - 1]))
  }

  lemma {:induction false} CollapseTidy(u: Unicode, s: seq<nat>, n: nat)
    requires Tidy(u, s) && n <= |s|
    ensures Collapse(u, s[..n]) == s[..n]
  {
    if n > 0 {
      CollapseTidy(u, s, n - 1);
      assert s[..n][..n - 1] == s[..n - 1];
    }
  }

  lemma {:induction false} TidyIsPrepared(u: Unicode, text: string)
    requires Tidy(u, u.fold(text)) && |u.fold(text)| <= MAX_LEN && forall r :: r in u.fold(text) ==> Known(r)
    ensures Prepared(u, text) == u.fold(text)
  {
    var s := u.fold(text);
    CollapseTidy(u, s, |s|);
    assert s[..|s|] == s;
    DecodeEncode(s);
    KnownStays(s);
  }

  lemma KnownStays(s: seq<nat>)
    requires forall r :: r in s ==> Known(r)
    ensures AllShown(s) == s
  {
    forall i | 0 <= i < |s| ensures AllShown(s)[i] == s[i] {
      assert s[i] in s;
    }
  }

  // ----- a word that occurs after preparing occurred before

  ghost predicate OccursIn(s: seq<nat>, w: seq<nat>) {
    exists i :: 0 <= i <= |s| - |w| && At(s, w, i)
  }

  predicate At(s: seq<nat>, w: seq<nat>, i: int)
    requires 0 <= i <= |s| - |w|
  {
    forall j {:trigger w[j]} :: 0 <= j < |w| ==> s[i + j] == w[j]
  }

  /** No white space, and nothing the encoding does not know. */
  ghost predicate IsWord(u: Unicode, w: seq<nat>) {
    forall r :: r in w ==> !u.isSpace(r) && Known(r)
  }

  lemma OccursInPart(s: seq<nat>, a: nat, b: nat, w: seq<nat>)
    requires a <= b <= |s| && OccursIn(s[a..b], w)
    ensures OccursIn(s, w)
  {
    var t := s[a..b];
    var i :| 0 <= i <= |t| - |w| && At(t, w, i);
    assert forall j :: 0 <= j < |t| ==> t[j] == s[a + j];
    assert At(s, w, a + i);
  }

  predicate EndsIn(s: seq<nat>, w: seq<nat>) {
    |w| <= |s| && s[|s| - |w|..] == w
  }

  lemma EndsInBefore(p: seq<nat>, x: nat, w: seq<nat>)
    requires w != [] && EndsIn(p + [x], w)
    ensures w[|w| - 1] == x && EndsIn(p, w[..|w| - 1])
  {
    var s, n := p + [x], |w| - 1;
    forall i | 0 <= i < n ensures p[|p| - n..][i] == w[i] {
      assert s[|s| - |w|..][i] == s[|p| - n + i];
    }
    assert s[|s| - |w|..][n] == x;
  }

  lemma EndsInAfter(p: seq<nat>, x: nat, w: seq<nat>)
    requires EndsIn(p, w)
    ensures EndsIn(p + [x], w + [x])
  {
  }

  /** A stretch without white space at the end of the collapsed text is at the end of the text. */
  lemma {:induction false} WordAtEnd(u: Unicode, s: seq<nat>, w: seq<nat>)
    requires IsWord(u, w) && u.isSpace(' ' as nat) && EndsIn(Collapse(u, s), w)
    ensures EndsIn(s, w)
  {
    if w != [] {
      LastOfWord(u, s, w);
      var p, c := s[..|s| - 1], s[|s| - 1];
      assert p + [c] == s;
      EndsInBefore(Collapse(u, p), c, w);
      WordAtEnd(u, p, w[..|w| - 1]);
      EndsInAfter(p, c, w[..|w| - 1]);
      assert w[..|w| - 1] + [c] == w;
    }
  }

  lemma LastOfWord(u: Unicode, s: seq<nat>, w: seq<nat>)
    requires IsWord(u, w) && w != [] && u.isSpace(' ' as nat) && EndsIn(Collapse(u, s), w)
    ensures s != [] && Collapse(u, s) == Collapse(u, s[..|s| - 1]) + [s[|s| - 1]]
  {
    var c := Collapse(u, s);
    assert c[|c| - 1] == c[|c| - |w|..][|w| - 1] == w[|w| - 1] && w[|w| - 1] in w;
    EndsAlike(u, s);
  }

  /** The collapsed text ends in white space exactly when the text does. */
  lemma {:induction false} EndsAlike(u: Unicode, s: seq<nat>)
    requires s != [] && u.isSpace(' ' as nat)
    ensures var c := Collapse(u, s);
            c != [] && if u.isSpace(s[|s| - 1]) then u.isSpace(c[|c| - 1]) else c[|c| - 1] == s[|s| - 1]
  {
    if |s| > 1 && u.isSpace(s[|s| - 1]) && u.isSpace(s[|s| - 2]) {
      EndsAlike(u, s[..|s| - 1]);
    }
  }

  lemma EndOccurs(s: seq<nat>, w: seq<nat>)
    requires EndsIn(s, w)
    ensures OccursIn(s, w)
  {
    var i := |s| - |w|;
    forall j | 0 <= j < |w| ensures s[i + j] == w[j] {
      assert s[i..][j] == s[i + j];
    }
    assert At(s, w, i);
  }

  lemma AtEnd(s: seq<nat>, w: seq<nat>)
    requires |w| <= |s| && At(s, w, |s| - |w|)
    ensures EndsIn(s, w)
  {
  }

  lemma OccursBeforeLast(p: seq<nat>, x: nat, w: seq<nat>)
    requires OccursIn(p + [x], w) && !EndsIn(p + [x], w)
    ensures OccursIn(p, w)
  {
    var s := p + [x];
    var i :| 0 <= i <= |s| - |w| && At(s, w, i);
    if i + |w| == |s| {
      AtEnd(s, w);
    } else {
      assert forall j :: 0 <= j < |p| ==> p[j] == s[j];
      assert At(p, w, i);
    }
  }

  lemma {:induction false} WordBeforeCollapse(u: Unicode, s: seq<nat>, w: seq<nat>)
    requires IsWord(u, w) && w != [] && u.isSpace(' ' as nat) && OccursIn(Collapse(u, s), w)
    ensures OccursIn(s, w)
  {
    if EndsIn(Collapse(u, s), w) {
      WordAtEnd(u, s, w);
      EndOccurs(s, w);
    } else {
      var k := |s| - 1;
      var before := Collapse(u, s[..k]);
      if Collapse(u, s) != before {
        OccursBeforeLast(before, if u.isSpace(s[k]) then ' ' as nat else s[k], w);
      }
      WordBeforeCollapse(u, s[..k], w);
      assert s[..k] == s[0..k];
      OccursInPart(s, 0, k, w);
    }
  }

  lemma {:induction false} TrimmedIsPart(u: Unicode, s: seq<nat>) returns (a: nat, b: nat)
    ensures a <= b <= |s| && TrimRight(u, TrimLeft(u, s)) == s[a..b]
  {
    a := LeftPart(u, s);
    var t := s[a..];
    var n := RightPart(u, t);
    b := a + n;
    assert t[..n] == s[a..b];
  }

  lemma {:induction false} LeftPart(u: Unicode, s: seq<nat>) returns (a: nat)
    ensures a <= |s| && TrimLeft(u, s) == s[a..]
  {
    if s != [] && u.isSpace(s[0]) {
      var b := LeftPart(u, s[1..]);
      a := b + 1;
      assert s[1..][b..] == s[a..];
    } else {
      a := 0;
    }
  }

  lemma {:induction false} RightPart(u: Unicode, s: seq<nat>) returns (b: nat)
    ensures b <= |s| && TrimRight(u, s) == s[..b]
  {
    if s != [] && u.isSpace(s[|s| - 1]) {
      b := RightPart(u, s[..|s| - 1]);
      assert s[..|s| - 1][..b] == s[..b];
    } else {
      b := |s|;
    }
  }

  /** Preparing neither joins nor makes words: one that occurs in the prepared text occurs in the folded one. */
  lemma {:induction false} WordBeforePreparing(u: Unicode, text: string, w: seq<nat>)
    requires IsWord(u, w) && w != [] && u.isSpace(' ' as nat) && OccursIn(Prepared(u, text), w)
    ensures OccursIn(u.fold(text), w)
  {
    var folded := u.fold(text);
    var trimmed := TrimRight(u, TrimLeft(u, folded));
    var collapsed, cut := Collapse(u, trimmed), Normalized(u, text);
    DecodeEncode(cut);
    WordBeforeShown(u, cut, w);
    assert cut == collapsed[0..|cut|];
    OccursInPart(collapsed, 0, |cut|, w);
    WordBeforeCollapse(u, trimmed, w);
    var a, b := TrimmedIsPart(u, folded);
    OccursInPart(folded, a, b, w);
  }

  lemma WordBeforeShown(u: Unicode, s: seq<nat>, w: seq<nat>)
    requires IsWord(u, w) && OccursIn(AllShown(s), w)
    ensures OccursIn(s, w)
  {
    var i :| 0 <= i <= |s| - |w| && At(AllShown(s), w, i);
    forall j | 0 <= j < |w| ensures s[i + j] == w[j] {
      assert AllShown(s)[i + j] == w[j] && w[j] in w;
    }
    assert At(s, w, i);
  }

  // ----- normalising is joining the words

  lemma {:induction false} FieldsLeftTrimmed(u: Unicode, s: seq<nat>)
    ensures Fields(TrimLeft(u, s), u.isSpace) == Fields(s, u.isSpace)
  {
    if s != [] && u.isSpace(s[0]) {
      FieldsLeftTrimmed(u, s[1..]);
      FieldsBehindSpace(s[1..], u.isSpace, s[0]);
      assert [s[0]] + s[1..] == s;
    }
  }

  lemma {:induction false} FieldsRightTrimmed(u: Unicode, s: seq<nat>)
    ensures Fields(TrimRight(u, s), u.isSpace) == Fields(s, u.isSpace)
  {
    if s != [] && u.isSpace(s[|s| - 1]) {
      FieldsRightTrimmed(u, s[..|s| - 1]);
      FieldsAppended(s[..|s| - 1], u.isSpace, s[|s| - 1]);
      assert s[..|s| - 1] + [s[|s| - 1]] == s;
    }
  }

  lemma CollapseAppended(u: Unicode, p: seq<nat>, c: nat)
    ensures Collapse(u, p + [c]) ==
            if !u.isSpace(c) then Collapse(u, p) + [c]
            else if p != [] && u.isSpace(p[|p| - 1]) then Collapse(u, p)
            else Collapse(u, p) + [' ' as nat]
  {
    assert (p + [c])[..|p|] == p;
  }

  ghost predicate JoinsUp(u: Unicode, s: seq<nat>) {
    s != []
    && Collapse(u, s) == Join(Fields(s, u.isSpace), ' ' as nat) + if u.isSpace(s[|s| - 1]) then [' ' as nat] else []
  }

  lemma OneJoinsUp(u: Unicode, c: nat)
    requires !u.isSpace(c)
    ensures JoinsUp(u, [c])
  {
    CollapseAppended(u, [], c);
    JoinFields([], u.isSpace, ' ' as nat, c);
    assert [] + [c] == [c];
  }

  lemma JoinsUpOn(u: Unicode, p: seq<nat>, c: nat)
    requires JoinsUp(u, p) && Join(Fields(p, u.isSpace), ' ' as nat) != []
    ensures JoinsUp(u, p + [c])
  {
    CollapseAppended(u, p, c);
    JoinFields(p, u.isSpace, ' ' as nat, c);
  }

  /** Behind a first word, collapsing joins the words and shows white space at the end. */
  lemma {:induction false} CollapseIsJoin(u: Unicode, s: seq<nat>)
    requires s != [] && !u.isSpace(s[0])
    ensures JoinsUp(u, s)
  {
    var p, c := s[..|s| - 1], s[|s| - 1];
    if p == [] {
      assert s == [c];
      OneJoinsUp(u, c);
    } else {
      CollapseIsJoin(u, p);
      FirstWord(u, p);
      JoinsUpOn(u, p, c);
      assert p + [c] == s;
    }
  }

  lemma {:induction false} FirstWord(u: Unicode, s: seq<nat>)
    requires s != [] && !u.isSpace(s[0])
    ensures Join(Fields(s, u.isSpace), ' ' as nat) != []
  {
    var p, c := s[..|s| - 1], s[|s| - 1];
    assert p + [c] == s;
    JoinFields(p, u.isSpace, ' ' as nat, c);
    if p != [] {
      FirstWord(u, p);
    }
  }

  lemma {:induction false} TrimmedEnds(u: Unicode, s: seq<nat>)
    ensures var t := TrimRight(u, TrimLeft(u, s)); t != [] ==> !u.isSpace(t[0]) && !u.isSpace(t[|t| - 1])
  {
    LeftTrimmed(u, s);
    RightTrimmed(u, TrimLeft(u, s));
  }

  lemma {:induction false} LeftTrimmed(u: Unicode, s: seq<nat>)
    ensures TrimLeft(u, s) != [] ==> !u.isSpace(TrimLeft(u, s)[0])
  {
    if s != [] && u.isSpace(s[0]) {
      LeftTrimmed(u, s[1..]);
    }
  }

  lemma {:induction false} RightTrimmed(u: Unicode, s: seq<nat>)
    ensures TrimRight(u, s) <= s && (TrimRight(u, s) != [] ==> !u.isSpace(TrimRight(u, s)[|TrimRight(u, s)| - 1]))
  {
    if s != [] && u.isSpace(s[|s| - 1]) {
      RightTrimmed(u, s[..|s| - 1]);
    }
  }

  /** The normalised text is the words of the folded text with single blanks, cut to 256 characters. */
  lemma {:induction false} NormalizedIsJoin(u: Unicode, text: string)
    ensures var joined := Join(Fields(u.fold(text), u.isSpace), ' ' as nat);
            Normalized(u, text) == if |joined| > 256 then joined[..256] else joined
  {
    var folded := u.fold(text);
    var left := TrimLeft(u, folded);
    var t := TrimRight(u, left);
    FieldsLeftTrimmed(u, folded);
    FieldsRightTrimmed(u, left);
    TrimmedEnds(u, folded);
    if t != [] {
      CollapseIsJoin(u, t);
    }
  }
}
