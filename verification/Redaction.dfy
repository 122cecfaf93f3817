/** Redaction by splicing from right to left, against a left-to-right rebuild. The matcher is abstract:
    it hands over spans of the text. */
module Redaction {
  import opened Common

  datatype Category = SSN | CreditCard | Email | Phone | Health | Other(name: string)

  datatype Match = Match(start: nat, end: nat, category: Category, redacted: string)

  datatype Config = Config(ssn: bool, creditCard: bool, email: bool, phone: bool, health: bool, custom: bool)

  const DEFAULT := Config(true, true, true, true, true, false)

  predicate Enabled(config: Config, category: Category) {
    match category
    case SSN => config.ssn
    case CreditCard => config.creditCard
    case Email => config.email
    case Phone => config.phone
    case Health => config.health
    case Other(_) => config.custom
  }

  /** Each setting governs its own category, and only that. */
  lemma SettingsGovern(config: Config, b: bool, category: Category)
    ensures Enabled(config.(ssn := b), category) == if category.SSN? then b else Enabled(config, category)
    ensures Enabled(config.(creditCard := b), category) == if category.CreditCard? then b else Enabled(config, category)
    ensures Enabled(config.(email := b), category) == if category.Email? then b else Enabled(config, category)
    ensures Enabled(config.(phone := b), category) == if category.Phone? then b else Enabled(config, category)
    ensures Enabled(config.(health := b), category) == if category.Health? then b else Enabled(config, category)
    ensures Enabled(config.(custom := b), category) == if category.Other? then b else Enabled(config, category)
  {
  }

  /** By default everything is redacted but custom patterns. */
  lemma DefaultEnables(category: Category)
    ensures Enabled(DEFAULT, category) <==> !category.Other?
  {
  }

  // ----- what redaction means

  predicate Apart(a: Match, b: Match) {
    a.end <= b.start || b.end <= a.start
  }

  /** Non-empty spans inside a text of length `n`. */
  ghost predicate InBounds(matches: seq<Match>, n: nat) {
    forall m :: m in matches ==> m.start < m.end <= n
  }

  /** Pairwise disjoint: each match is apart from all listed before it. */
  ghost predicate PairwiseApart(matches: seq<Match>) {
    matches == []
    || var k := |matches| - 1;
       PairwiseApart(matches[..k]) && forall m :: m in matches[..k] ==> Apart(m, matches[k])
  }

  ghost predicate Disjoint(matches: seq<Match>, n: nat) {
    InBounds(matches, n) && PairwiseApart(matches)
  }

  /** The enabled match that starts at `p`, if there is one. */
  ghost function StartingAt(matches: seq<Match>, on: Match -> bool, p: nat): (r: Option<Match>)
    ensures r.Some? ==> r.value in matches && r.value.start == p && on(r.value)
    ensures r.None? ==> forall m :: m in matches && m.start == p ==> !on(m)
  {
    if exists m :: m in matches && m.start == p && on(m) then
      var m :| m in matches && m.start == p && on(m);
      Some(m)
    else None
  }

  /** The text from `p` on, copied from left to right, except that where an enabled match starts its
      redaction is written and the match is skipped. */
  ghost function Rebuild(text: string, matches: seq<Match>, on: Match -> bool, p: nat): string
    requires p <= |text| && InBounds(matches, |text|)
    decreases |text| - p
  {
    if p == |text| then ""
    else
      match StartingAt(matches, on, p)
      case Some(m) => m.redacted + Rebuild(text, matches, on, m.end)
      case None => [text[p]] + Rebuild(text, matches, on, p + 1)
  }

  lemma {:induction false} OverlapIsSame(matches: seq<Match>, n: nat, a: Match, b: Match)
    requires Disjoint(matches, n) && a in matches && b in matches && !Apart(a, b)
    ensures a == b
  {
    var k := |matches| - 1;
    assert matches == matches[..k] + [matches[k]];
    if a in matches[..k] && b in matches[..k] {
      OverlapIsSame(matches[..k], n, a, b);
    }
  }

  lemma {:induction false} RebuildAt(text: string, matches: seq<Match>, on: Match -> bool, m: Match)
    requires Disjoint(matches, |text|) && m in matches && on(m)
    ensures Rebuild(text, matches, on, m.start) == m.redacted + Rebuild(text, matches, on, m.end)
  {
    var found := StartingAt(matches, on, m.start);
    OverlapIsSame(matches, |text|, m, found.value);
  }

  /** Where no enabled match starts, the text is copied unchanged. */
  lemma {:induction false} RebuildCopies(text: string, matches: seq<Match>, on: Match -> bool, p: nat, q: nat)
    requires InBounds(matches, |text|) && p <= q <= |text|
    requires forall m :: m in matches && p <= m.start < q ==> !on(m)
    ensures Rebuild(text, matches, on, p) == text[p..q] + Rebuild(text, matches, on, q)
    decreases q - p
  {
    if p < q {
      RebuildCopies(text, matches, on, p + 1, q);
      var rest := Rebuild(text, matches, on, q);
      assert Rebuild(text, matches, on, p) == [text[p]] + (text[p + 1..q] + rest);
      Associative([text[p]], text[p + 1..q], rest);
      assert text[p..q] == [text[p]] + text[p + 1..q];
    }
  }

  /** The rebuild does not depend on the order in which the matches are listed ... */
  lemma {:induction false} RebuildOrderFree(text: string, a: seq<Match>, b: seq<Match>, on: Match -> bool, p: nat)
    requires Disjoint(a, |text|) && Disjoint(b, |text|) && p <= |text|
    requires forall m :: m in a <==> m in b
    ensures Rebuild(text, a, on, p) == Rebuild(text, b, on, p)
    decreases |text| - p
  {
    if p < |text| {
      var x, y := StartingAt(a, on, p), StartingAt(b, on, p);
      if x.Some? && y.Some? {
        OverlapIsSame(a, |text|, x.value, y.value);
        RebuildOrderFree(text, a, b, on, x.value.end);
      } else {
        RebuildOrderFree(text, a, b, on, p + 1);
      }
    }
  }

  /** ... and asks only about the matches listed. */
  lemma {:induction false} RebuildSettings(
    text: string, matches: seq<Match>, on: Match -> bool, on': Match -> bool, p: nat)
    requires Disjoint(matches, |text|) && p <= |text|
    requires forall m :: m in matches ==> on(m) == on'(m)
    ensures Rebuild(text, matches, on, p) == Rebuild(text, matches, on', p)
    decreases |text| - p
  {
    if p < |text| {
      var x, y := StartingAt(matches, on, p), StartingAt(matches, on', p);
      if x.Some? && y.Some? {
        OverlapIsSame(matches, |text|, x.value, y.value);
        RebuildSettings(text, matches, on, on', x.value.end);
      } else {
        RebuildSettings(text, matches, on, on', p + 1);
      }
    }
  }

  // ----- the exchange sort

  method Exchange(a: array<Match>, i: nat, j: nat)
    requires i < j < a.Length
    modifies a
    ensures multiset(a[..]) == multiset(old(a[..]))
    ensures a[i] == old(a[j]) && a[j] == old(a[i])
    ensures forall p :: 0 <= p < a.Length && p != i && p != j ==> a[p] == old(a[p])
  {
    a[i], a[j] := a[j], a[i];
  }

  /** Brings the largest start of a[i..] to position i. */
  method SelectLargest(a: array<Match>, i: nat)
    requires i < a.Length
    modifies a
    ensures multiset(a[..]) == multiset(old(a[..]))
    ensures forall p :: 0 <= p < i ==> a[p] == old(a[p])
    ensures forall q :: i < q < a.Length ==> a[i].start >= a[q].start
  {
    for j := i + 1 to a.Length
      invariant multiset(a[..]) == multiset(old(a[..]))
      invariant forall p :: 0 <= p < i ==> a[p] == old(a[p])
      invariant forall q :: i < q < j ==> a[i].start >= a[q].start
    {
      if a[i].start < a[j].start {
        Exchange(a, i, j);
      }
    }
  }

  ghost predicate Descending(s: seq<Match>, n: nat) {
    forall p, q :: 0 <= p < n && p < q < |s| ==> s[p].start >= s[q].start
  }

  method SortDescending(a: array<Match>)
    modifies a
    ensures multiset(a[..]) == multiset(old(a[..]))
    ensures Descending(a[..], a.Length)
  {
    var i := 0;
    while i < a.Length - 1
      invariant 0 <= i <= a.Length
      invariant multiset(a[..]) == multiset(old(a[..]))
      invariant Descending(a[..], i)
    {
      ghost var before := a[..];
      SelectLargest(a, i);
      DescendingGrows(before, a[..], i);
      i := i + 1;
    }
  }

  lemma DescendingGrows(before: seq<Match>, after: seq<Match>, i: nat)
    requires i < |before| == |after| && Descending(before, i) && multiset(before) == multiset(after)
    requires after[..i] == before[..i]
    requires forall q :: i < q < |after| ==> after[i].start >= after[q].start
    ensures Descending(after, i + 1)
  {
    assert before == before[..i] + before[i..] && after == after[..i] + after[i..];
    TailPermutes(before[..i], before[i..], after[i..]);
    forall p, q | 0 <= p < i <= q < |after| ensures after[p].start >= after[q].start {
      var q' := WhereItWas(before[i..], after[i..], q - i);
      assert before[i + q'] == after[q] && before[p] == before[..i][p] == after[p];
    }
  }

  lemma TailPermutes<T>(head: seq<T>, s: seq<T>, t: seq<T>)
    requires multiset(head + s) == multiset(head + t)
    ensures multiset(s) == multiset(t)
  {
    assert multiset(s) == multiset(head + s) - multiset(head);
    assert multiset(t) == multiset(head + t) - multiset(head);
  }

  lemma WhereItWas<T>(before: seq<T>, after: seq<T>, i: nat) returns (j: nat)
    requires multiset(before) == multiset(after) && i < |after|
    ensures j < |before| && before[j] == after[i]
  {
    assert after[i] in multiset(before);
    j :| 0 <= j < |before| && before[j] == after[i];
  }

  /** Where the text still untouched ends, after `k` matches. */
  function Border(sorted: seq<Match>, n: nat, k: nat): nat
    requires k <= |sorted|
  {
    if k == 0 then n else sorted[k - 1].start
  }

  /** The matches from the last in the text to the first: each ends before the one taken before it
      starts, and none starts in between. */
  ghost predicate RightToLeft(sorted: seq<Match>, matches: seq<Match>, n: nat) {
    && (forall k {:trigger Border(sorted, n, k)} :: 0 <= k < |sorted| ==>
          sorted[k] in matches && sorted[k].end <= Border(sorted, n, k) <= n)
    && (forall k, m {:trigger Border(sorted, n, k), m in matches} :: 0 <= k < |sorted| && m in matches ==>
          m.start <= sorted[k].start || m.start >= Border(sorted, n, k))
    && (forall m :: m in matches ==> sorted != [] && m.start >= sorted[|sorted| - 1].start)
  }

  /** The matches in some order of descending starts. */
  ghost predicate SortedFrom(matches: seq<Match>, sorted: seq<Match>) {
    multiset(sorted) == multiset(matches) && Descending(sorted, |sorted|)
  }

  method SortedMatches(matches: seq<Match>) returns (sorted: array<Match>)
    ensures fresh(sorted) && SortedFrom(matches, sorted[..])
  {
    sorted := new Match[|matches|](i requires 0 <= i < |matches| => matches[i]);
    assert sorted[..] == matches;
    SortDescending(sorted);
  }

  /** Disjoint matches are never listed twice. */
  lemma {:induction false} ListedOnce(matches: seq<Match>, n: nat, m: Match)
    requires Disjoint(matches, n)
    ensures multiset(matches)[m] <= 1
  {
    if matches != [] {
      var k := |matches| - 1;
      assert matches == matches[..k] + [matches[k]];
      ListedOnce(matches[..k], n, m);
      assert multiset(matches) == multiset(matches[..k]) + multiset{matches[k]};
      assert matches[k] in matches;
      assert matches[k] !in matches[..k];
      assert matches[k] !in multiset(matches[..k]);
    }
  }

  lemma {:induction false} StrictlyDescending(matches: seq<Match>, sorted: seq<Match>, n: nat, i: nat, j: nat)
    requires Disjoint(matches, n) && multiset(sorted) == multiset(matches)
    requires i < j < |sorted| && sorted[i].start >= sorted[j].start
    ensures sorted[j].end <= sorted[i].start
  {
    var k := WhereItWas(matches, sorted, i);
    var l := WhereItWas(matches, sorted, j);
    ListedOnce(matches, n, sorted[i]);
    if sorted[i] == sorted[j] {
      CountedTwice(sorted, i, j);
    } else if !Apart(sorted[i], sorted[j]) {
      OverlapIsSame(matches, n, sorted[i], sorted[j]);
    }
  }

  lemma NoneBetween(sorted: seq<Match>, n: nat, k: nat, m: Match)
    requires Descending(sorted, |sorted|) && k < |sorted| && m in sorted
    ensures m.start <= sorted[k].start || m.start >= Border(sorted, n, k)
    ensures m.start >= sorted[|sorted| - 1].start
  {
    var l :| 0 <= l < |sorted| && sorted[l] == m;
  }

  lemma EndsBeforeBorder(matches: seq<Match>, sorted: seq<Match>, n: nat, k: nat)
    requires Disjoint(matches, n) && multiset(sorted) == multiset(matches) && Descending(sorted, |sorted|)
    requires k < |sorted|
    ensures sorted[k] in matches && sorted[k].end <= Border(sorted, n, k) <= n
  {
    var i := WhereItWas(matches, sorted, k);
    if k > 0 {
      var j := WhereItWas(matches, sorted, k - 1);
      StrictlyDescending(matches, sorted, n, k - 1, k);
    }
  }

  lemma {:induction false} SortedRightToLeft(matches: seq<Match>, sorted: seq<Match>, n: nat)
    requires Disjoint(matches, n) && multiset(sorted) == multiset(matches) && Descending(sorted, |sorted|)
    ensures RightToLeft(sorted, matches, n)
  {
    forall m | m in matches ensures m in sorted {
      assert m in multiset(sorted);
    }
    forall k | 0 <= k < |sorted| ensures sorted[k] in matches && sorted[k].end <= Border(sorted, n, k) <= n {
      EndsBeforeBorder(matches, sorted, n, k);
    }
    forall k, m | 0 <= k < |sorted| && m in matches
      ensures m.start <= sorted[k].start || m.start >= Border(sorted, n, k)
    {
      NoneBetween(sorted, n, k, m);
    }
    forall m | m in matches ensures sorted != [] && m.start >= sorted[|sorted| - 1].start {
      assert m in sorted;
      NoneBetween(sorted, n, 0, m);
    }
  }

  // ----- the splice

  /** What one turn of the splicing loop does to the result so far. It panics when a match reaches beyond it. */
  function Spliced(on: Match -> bool, m: Match, result: string): Option<string> {
    if !on(m) then Some(result)
    else if m.start > |result| || m.end > |result| then None
    else Some(result[..m.start] + m.redacted + result[m.end..])
  }

  /** The text after the first `k` turns. */
  function SplicedAll(text: string, on: Match -> bool, sorted: seq<Match>, k: nat): Option<string>
    requires k <= |sorted|
  {
    if k == 0 then Some(text)
    else
      match SplicedAll(text, on, sorted, k - 1)
      case None => None
      case Some(result) => Spliced(on, sorted[k - 1], result)
  }

  lemma {:induction false} PanicStays(text: string, on: Match -> bool, sorted: seq<Match>, k: nat)
    requires k <= |sorted| && SplicedAll(text, on, sorted, k).None?
    ensures SplicedAll(text, on, sorted, |sorted|).None?
    decreases |sorted| - k
  {
    if k < |sorted| {
      PanicStays(text, on, sorted, k + 1);
    }
  }

  ghost function Done(text: string, matches: seq<Match>, on: Match -> bool, b: nat): string
    requires b <= |text| && InBounds(matches, |text|)
  {
    text[..b] + Rebuild(text, matches, on, b)
  }

  /** One splice: the original indices still work, because everything to the left is untouched. */
  lemma {:induction false} SpliceOne(text: string, matches: seq<Match>, on: Match -> bool, m: Match, b: nat)
    requires Disjoint(matches, |text|) && m in matches && m.end <= b <= |text|
    requires forall m' :: m' in matches && m.start < m'.start ==> m'.start >= b
    ensures Spliced(on, m, Done(text, matches, on, b)) == Some(Done(text, matches, on, m.start))
  {
    if on(m) {
      SpliceOn(text, matches, on, m, b);
    } else {
      forall m' | m' in matches && m.start <= m'.start < b ensures m' == m {
        OverlapIsSame(matches, |text|, m, m');
      }
      RebuildCopies(text, matches, on, m.start, b);
      assert text[..b] == text[..m.start] + text[m.start..b];
      Associative(text[..m.start], text[m.start..b], Rebuild(text, matches, on, b));
    }
  }

  lemma {:induction false} SpliceOn(text: string, matches: seq<Match>, on: Match -> bool, m: Match, b: nat)
    requires Disjoint(matches, |text|) && m in matches && m.end <= b <= |text| && on(m)
    requires forall m' :: m' in matches && m.start < m'.start ==> m'.start >= b
    ensures Spliced(on, m, Done(text, matches, on, b)) == Some(Done(text, matches, on, m.start))
  {
    var rest := Rebuild(text, matches, on, b);
    RebuildAt(text, matches, on, m);
    RebuildCopies(text, matches, on, m.end, b);
    var result := text[..b] + rest;
    assert result[..m.start] == text[..m.start] && result[m.end..] == text[m.end..b] + rest;
    Associative(text[..m.start], m.redacted, text[m.end..b] + rest);
  }

  lemma {:induction false} SpliceStep(text: string, matches: seq<Match>, on: Match -> bool, sorted: seq<Match>, k: nat)
    requires Disjoint(matches, |text|) && RightToLeft(sorted, matches, |text|) && k < |sorted|
    ensures sorted[k].start <= sorted[k].end <= Border(sorted, |text|, k) <= |text|
    ensures Spliced(on, sorted[k], Done(text, matches, on, Border(sorted, |text|, k)))
            == Some(Done(text, matches, on, sorted[k].start))
  {
    SpliceOne(text, matches, on, sorted[k], Border(sorted, |text|, k));
  }

  /** After the last match, nothing is left to redact. */
  lemma {:induction false} SpliceDone(text: string, matches: seq<Match>, on: Match -> bool, sorted: seq<Match>)
    requires Disjoint(matches, |text|) && RightToLeft(sorted, matches, |text|)
    ensures var b := Border(sorted, |text|, |sorted|);
            b <= |text| && Done(text, matches, on, b) == Rebuild(text, matches, on, 0)
  {
    var b := Border(sorted, |text|, |sorted|);
    assert sorted != [] ==> Border(sorted, |text|, |sorted| - 1) <= |text| && b < |text|;
    RebuildCopies(text, matches, on, 0, b);
  }

  lemma {:induction false} SplicedIsDone(
    text: string, matches: seq<Match>, on: Match -> bool, sorted: seq<Match>, k: nat)
    requires Disjoint(matches, |text|) && RightToLeft(sorted, matches, |text|) && k <= |sorted|
    ensures Border(sorted, |text|, k) <= |text|
    ensures SplicedAll(text, on, sorted, k) == Some(Done(text, matches, on, Border(sorted, |text|, k)))
  {
    if k == 0 {
      assert Rebuild(text, matches, on, |text|) == "";
      assert text[..|text|] + "" == text;
    } else {
      SplicedIsDone(text, matches, on, sorted, k - 1);
      SpliceStep(text, matches, on, sorted, k - 1);
    }
  }

  /** For disjoint matches no turn panics, and the splices add up to the left-to-right rebuild, in whichever
      order of descending starts. */
  lemma {:induction false} SplicesRebuild(text: string, matches: seq<Match>, on: Match -> bool, sorted: seq<Match>)
    requires Disjoint(matches, |text|) && SortedFrom(matches, sorted)
    ensures SplicedAll(text, on, sorted, |sorted|) == Some(Rebuild(text, matches, on, 0))
  {
    SortedRightToLeft(matches, sorted, |text|);
    SplicedIsDone(text, matches, on, sorted, |sorted|);
    SpliceDone(text, matches, on, sorted);
  }

  /** The setting for the category of the first match with the span of `m`. */
  function Setting(matches: seq<Match>, config: Config, m: Match): bool {
    if matches == [] then true
    else if matches[0].start == m.start && matches[0].end == m.end then Enabled(config, matches[0].category)
    else Setting(matches[1..], config, m)
  }

  /** For disjoint matches that is the setting for its own category. */
  lemma {:induction false} SettingIsOwn(matches: seq<Match>, n: nat, config: Config, m: Match, rest: seq<Match>)
    requires Disjoint(matches, n) && m in matches && m in rest && forall x :: x in rest ==> x in matches
    ensures Setting(rest, config, m) == Enabled(config, m.category)
  {
    assert rest[0] in rest;
    if rest[0].start == m.start && rest[0].end == m.end {
      OverlapIsSame(matches, n, m, rest[0]);
    } else {
      SettingIsOwn(matches, n, config, m, rest[1..]);
    }
  }

  method ShouldRedact(matches: seq<Match>, m: Match, config: Config) returns (yes: bool)
    ensures yes == Setting(matches, config, m)
  {
    yes := true;
    assert matches[0..] == matches;
    for i := 0 to |matches|
      invariant Setting(matches[i..], config, m) == Setting(matches, config, m)
    {
      if matches[i].start == m.start && matches[i].end == m.end {
        return Enabled(config, matches[i].category);
      }
      assert matches[i..][1..] == matches[i + 1..];
    }
  }

  /** The splices in an order of descending starts; None is a panic. For disjoint matches, in whatever order
      they were found, that is the left-to-right rebuild with each enabled match redacted. */
  method RedactPII(text: string, matches: seq<Match>, config: Option<Config>) returns (redacted: Option<string>)
    ensures var c := if config.Some? then config.value else DEFAULT;
            && (exists sorted :: SortedFrom(matches, sorted)
                  && redacted == SplicedAll(text, m => Setting(matches, c, m), sorted, |sorted|))
            && (Disjoint(matches, |text|) ==>
                  redacted == Some(Rebuild(text, matches, (m: Match) => Enabled(c, m.category), 0)))
  {
    var c := if config.Some? then config.value else DEFAULT;
    ghost var on := m => Setting(matches, c, m);
    var byStart := SortedMatches(matches);
    var sorted := byStart[..];
    RedactsAsRebuilt(text, matches, c, sorted);
    var result := text;
    for k := 0 to |sorted|
      invariant SplicedAll(text, on, sorted, k) == Some(result)
    {
      var m := sorted[k];
      var shouldRedact := ShouldRedact(matches, m, c);
      if shouldRedact {
        if m.start > |result| || m.end > |result| {
          PanicStays(text, on, sorted, k + 1);
          return None;
        }
        result := result[..m.start] + m.redacted + result[m.end..];
      }
    }
    return Some(result);
  }

  lemma RedactsAsRebuilt(text: string, matches: seq<Match>, c: Config, sorted: seq<Match>)
    requires SortedFrom(matches, sorted)
    ensures Disjoint(matches, |text|) ==>
              SplicedAll(text, m => Setting(matches, c, m), sorted, |sorted|)
              == Some(Rebuild(text, matches, (m: Match) => Enabled(c, m.category), 0))
  {
    if Disjoint(matches, |text|) {
      SplicesRebuild(text, matches, m => Setting(matches, c, m), sorted);
      forall m | m in matches ensures Setting(matches, c, m) == Enabled(c, m.category) {
        SettingIsOwn(matches, |text|, c, m, matches);
      }
      RebuildSettings(text, matches, m => Setting(matches, c, m), (m: Match) => Enabled(c, m.category), 0);
    }
  }

  /** The same with every match enabled. */
  method MaskSecrets(text: string, matches: seq<Match>) returns (masked: Option<string>)
    ensures exists sorted :: SortedFrom(matches, sorted) && masked == SplicedAll(text, _ => true, sorted, |sorted|)
    ensures Disjoint(matches, |text|) ==> masked == Some(Rebuild(text, matches, _ => true, 0))
  {
    var byStart := SortedMatches(matches);
    var sorted := byStart[..];
    if Disjoint(matches, |text|) {
      SplicesRebuild(text, matches, _ => true, sorted);
    }
    var result := text;
    for k := 0 to |sorted|
      invariant SplicedAll(text, _ => true, sorted, k) == Some(result)
    {
      var m := sorted[k];
      if m.start > |result| || m.end > |result| {
        PanicStays(text, _ => true, sorted, k + 1);
        return None;
      }
      result := result[..m.start] + m.redacted + result[m.end..];
    }
    return Some(result);
  }
}
