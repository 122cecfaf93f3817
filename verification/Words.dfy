/** Splitting at white space and joining with a separator, as strings.Fields and strings.Join do. */
module Words {
  import opened Common

  /** The stretches without white space, in order. */
  function Fields<T>(s: seq<T>, isSpace: T -> bool): seq<seq<T>> {
    if s == [] then []
    else
      var k := |s| - 1;
      var before := Fields(s[..k], isSpace);
      if isSpace(s[k]) then before
      else if k == 0 || isSpace(s[k - 1]) || before == [] then before + [[s[k]]]
      else before[..|before| - 1] + [before[|before| - 1] + [s[k]]]
  }

  function Join<T>(words: seq<seq<T>>, sep: T): seq<T> {
    if words == [] then []
    else if |words| == 1 then words[0]
    else Join(words[..|words| - 1], sep) + [sep] + words[|words| - 1]
  }

  lemma FieldsAppended<T>(s: seq<T>, isSpace: T -> bool, c: T)
    ensures var before := Fields(s, isSpace);
            Fields(s + [c], isSpace) ==
            if isSpace(c) then before
            else if s == [] || isSpace(s[|s| - 1]) || before == [] then before + [[c]]
            else before[..|before| - 1] + [before[|before| - 1] + [c]]
  {
    assert (s + [c])[..|s|] == s;
  }

  lemma {:induction false} FieldsNotEmpty<T>(s: seq<T>, isSpace: T -> bool)
    ensures forall i :: 0 <= i < |Fields(s, isSpace)| ==> Fields(s, isSpace)[i] != []
    ensures s != [] && !isSpace(s[|s| - 1]) ==> Fields(s, isSpace) != []
  {
    if s != [] {
      FieldsNotEmpty(s[..|s| - 1], isSpace);
    }
  }

  lemma JoinMore<T>(words: seq<seq<T>>, sep: T, word: seq<T>)
    ensures Join(words + [word], sep) == if words == [] then word else Join(words, sep) + [sep] + word
  {
    assert (words + [word])[..|words|] == words;
  }

  lemma {:induction false} JoinNotEmpty<T>(words: seq<seq<T>>, sep: T)
    requires forall i :: 0 <= i < |words| ==> words[i] != []
    ensures Join(words, sep) == [] <==> words == []
  {
  }

  /** One more character of the last word. */
  lemma JoinLonger<T>(words: seq<seq<T>>, sep: T, c: T)
    requires words != []
    ensures var last := |words| - 1;
            Join(words[..last] + [words[last] + [c]], sep) == Join(words, sep) + [c]
  {
    var last := |words| - 1;
    assert words == words[..last] + [words[last]];
    JoinMore(words[..last], sep, words[last]);
    JoinMore(words[..last], sep, words[last] + [c]);
    Associative(Join(words[..last], sep) + [sep], words[last], [c]);
  }

  /** What joining the words of a longer text gives. */
  lemma {:induction false} JoinFields<T>(s: seq<T>, isSpace: T -> bool, sep: T, c: T)
    ensures var r := Join(Fields(s, isSpace), sep);
            Join(Fields(s + [c], isSpace), sep) ==
            if isSpace(c) then r
            else if r != [] && isSpace(s[|s| - 1]) then r + [sep] + [c]
            else r + [c]
  {
    var words := Fields(s, isSpace);
    FieldsAppended(s, isSpace, c);
    FieldsNotEmpty(s, isSpace);
    JoinNotEmpty(words, sep);
    if !isSpace(c) {
      if s == [] || isSpace(s[|s| - 1]) || words == [] {
        JoinMore(words, sep, [c]);
      } else {
        JoinLonger(words, sep, c);
      }
    }
  }

  /** White space in front makes no difference. */
  lemma {:induction false} FieldsBehindSpace<T>(s: seq<T>, isSpace: T -> bool, x: T)
    requires isSpace(x)
    ensures Fields([x] + s, isSpace) == Fields(s, isSpace)
  {
    if s == [] {
      assert [x] + s == [] + [x];
      FieldsAppended([], isSpace, x);
    } else {
      var p, c := s[..|s| - 1], s[|s| - 1];
      FieldsBehindSpace(p, isSpace, x);
      FieldsAppended([x] + p, isSpace, c);
      FieldsAppended(p, isSpace, c);
      assert [x] + p + [c] == [x] + s && p + [c] == s;
      assert p != [] ==> ([x] + p)[|p|] == p[|p| - 1];
    }
  }
}
