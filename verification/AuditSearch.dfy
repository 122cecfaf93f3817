/** Searching the audit log: one scan with filter, offset and limit, against the filtered list. */
module AuditSearch {
  import opened Common
  import AuditEncryption
  import Detector

  /** Instants are integers; the slices are searched but not interpreted. */
  datatype Entry = Entry(
    timestamp: int, direction: string, host: string, path: string, blocked: bool,
    piiCategories: seq<string>, secretTypes: seq<string>, categories: seq<string>,
    severities: seq<string>, rules: seq<string>)

  datatype Query = Query(
    pattern: string, from: Option<int>, to: Option<int>, severities: seq<string>, categories: seq<string>,
    direction: string, host: string, blockedOnly: bool, offset: int, limit: int)

  /** Unicode case handling and JSON belong to Go's library. */
  datatype Library = Library(
    lower: string -> string, equalFold: (string, string) -> bool, unmarshal: string -> Option<Entry>)

  // ----- the filter

  predicate AnyFold(lib: Library, have: seq<string>, want: seq<string>) {
    exists i, j :: 0 <= i < |have| && 0 <= j < |want| && lib.equalFold(have[i], want[j])
  }

  predicate AnyContains(lib: Library, fields: seq<string>, pattern: string) {
    exists i :: 0 <= i < |fields| && Detector.Contains(lib.lower(fields[i]), pattern)
  }

  function Fields(e: Entry): seq<string> {
    [e.direction, e.host, e.path] + e.categories + e.severities + e.rules + e.piiCategories + e.secretTypes
  }

  /** Every criterion that is set holds of the entry. */
  predicate Matches(lib: Library, e: Entry, q: Query) {
    && (q.blockedOnly ==> e.blocked)
    && (q.direction != "" ==> lib.equalFold(e.direction, q.direction))
    && (q.host != "" ==> Detector.Contains(lib.lower(e.host), lib.lower(q.host)))
    && (q.from.Some? ==> q.from.value <= e.timestamp)
    && (q.to.Some? ==> e.timestamp <= q.to.value)
    && (q.severities != [] ==> AnyFold(lib, e.severities, q.severities))
    && (q.categories != [] ==> AnyFold(lib, e.categories, q.categories))
    && (q.pattern != "" ==> AnyContains(lib, Fields(e), lib.lower(q.pattern)))
  }

  method FoldFound(lib: Library, have: seq<string>, want: seq<string>) returns (found: bool)
    ensures found == AnyFold(lib, have, want)
  {
    found := false;
    for i := 0 to |have|
      invariant !found && forall k, l :: 0 <= k < i && 0 <= l < |want| ==> !lib.equalFold(have[k], want[l])
    {
      for j := 0 to |want|
        invariant !found && forall l :: 0 <= l < j ==> !lib.equalFold(have[i], want[l])
      {
        if lib.equalFold(have[i], want[j]) {
          found := true;
          break;
        }
      }
      if found {
        break;
      }
    }
  }

  method ContainsFound(lib: Library, fields: seq<string>, pattern: string) returns (found: bool)
    ensures found == AnyContains(lib, fields, pattern)
  {
    for i := 0 to |fields|
      invariant forall k :: 0 <= k < i ==> !Detector.Contains(lib.lower(fields[k]), pattern)
    {
      if Detector.Contains(lib.lower(fields[i]), pattern) {
        return true;
      }
    }
    return false;
  }

  method MatchesQuery(lib: Library, e: Entry, q: Query) returns (ok: bool)
    ensures ok == Matches(lib, e, q)
  {
    if q.blockedOnly && !e.blocked {
      return false;
    }
    if q.direction != "" && !lib.equalFold(e.direction, q.direction) {
      return false;
    }
    if q.host != "" && !Detector.Contains(lib.lower(e.host), lib.lower(q.host)) {
      return false;
    }
    if q.from.Some? && e.timestamp < q.from.value {
      return false;
    }
    if q.to.Some? && e.timestamp > q.to.value {
      return false;
    }
    if q.severities != [] {
      var found := FoldFound(lib, e.severities, q.severities);
      if !found {
        return false;
      }
    }
    if q.categories != [] {
      var found := FoldFound(lib, e.categories, q.categories);
      if !found {
        return false;
      }
    }
    if q.pattern != "" {
      ok := ContainsFound(lib, Fields(e), lib.lower(q.pattern));
      return;
    }
    return true;
  }

  // ----- what there is to find

  const LINE_LIMIT := 1024 * 1024

  /** The lines the scanner can deliver: up to the first that does not fit its buffer. */
  function Readable(lines: seq<string>): seq<string> {
    if lines == [] || |lines[0]| >= LINE_LIMIT then [] else [lines[0]] + Readable(lines[1..])
  }

  /** The scanner drops a carriage return at the end of a line. */
  function Token(line: string): string {
    if line != "" && line[|line| - 1] == '\r' then line[..|line| - 1] else line
  }

  /** Empty and malformed lines are skipped. */
  function EntryOf(lib: Library, line: string): Option<Entry> {
    if Token(line) == "" then None else lib.unmarshal(Token(line))
  }

  /** The entries of the log that match, in order. */
  function Filtered(lib: Library, q: Query, lines: seq<string>): seq<Entry> {
    Kept(Classes(lib, q, lines))
  }

  /** For each line the entry it holds, if that is wanted. */
  function Classes(lib: Library, q: Query, lines: seq<string>): seq<Option<Entry>> {
    seq(|lines|, i requires 0 <= i < |lines| => Wanted(lib, q, lines[i]))
  }

  function Kept(classes: seq<Option<Entry>>): seq<Entry> {
    if classes == [] then []
    else
      var k := |classes| - 1;
      match classes[k]
      case Some(e) => Kept(classes[..k]) + [e]
      case None => Kept(classes[..k])
  }

  function Wanted(lib: Library, q: Query, line: string): Option<Entry> {
    var e := EntryOf(lib, line);
    if e.Some? && Matches(lib, e.value, q) then e else None
  }

  datatype Found = Found(entries: seq<Entry>, total: nat, hasMore: bool)

  function LimitOf(q: Query): nat {
    if q.limit <= 0 then 100 else q.limit
  }

  function OffsetOf(q: Query): nat {
    Max(q.offset, 0)
  }

  /** The page of a filtered list. */
  function Page(all: seq<Entry>, offset: nat, limit: nat): Found {
    var n := |all|;
    Found(all[Min(offset, n)..Min(offset + limit, n)], Min(n, offset + limit + 1), n > offset + limit)
  }

  /** What the scan has collected after the matches `sofar`: all but the first `offset`. */
  function Taken(sofar: seq<Entry>, offset: nat): seq<Entry> {
    if sofar == [] then []
    else
      var k := |sofar| - 1;
      if k >= offset then Taken(sofar[..k], offset) + [sofar[k]] else Taken(sofar[..k], offset)
  }

  lemma {:induction false} TakenIs(sofar: seq<Entry>, offset: nat)
    ensures Taken(sofar, offset) == sofar[Min(offset, |sofar|)..]
  {
    if sofar != [] {
      TakenIs(sofar[..|sofar| - 1], offset);
    }
  }

  lemma {:induction false} TakenSize(sofar: seq<Entry>, offset: nat)
    ensures |Taken(sofar, offset)| == Max(|sofar| - offset, 0)
  {
    TakenIs(sofar, offset);
  }

  lemma TakenGrows(sofar: seq<Entry>, e: Entry, offset: nat)
    ensures Taken(sofar + [e], offset) == if |sofar| >= offset then Taken(sofar, offset) + [e] else Taken(sofar, offset)
  {
    assert (sofar + [e])[..|sofar|] == sofar;
  }

  lemma StopHere(all: seq<Entry>, sofar: seq<Entry>, e: Entry, offset: nat, limit: nat)
    requires sofar + [e] <= all && |sofar| == offset + limit
    ensures Page(all, offset, limit) == Found(Taken(sofar, offset), |sofar| + 1, true)
  {
    TakenIs(sofar, offset);
    assert all[..|sofar|] == sofar;
    assert all[offset..offset + limit] == sofar[offset..];
  }

  lemma EndHere(all: seq<Entry>, offset: nat, limit: nat)
    requires |all| <= offset + limit
    ensures Page(all, offset, limit) == Found(Taken(all, offset), |all|, false)
  {
    TakenIs(all, offset);
  }

  /** The scan stops at the first match after the page; it fails only if it meets an overlong line before. */
  method Search(lib: Library, q: Query, data: string) returns (r: Option<Found>)
    ensures r == SearchResult(lib, q, AuditEncryption.Lines(data))
  {
    var lines := AuditEncryption.SplitLines(data);
    ghost var classes, n := Classes(lib, q, lines), |Readable(lines)|;
    ReadablePrefix(lines);
    ghost var end;
    r, end := Scan(lib, q, lines, classes, n);
    EndsAtOutcome(classes, n, end, OffsetOf(q), LimitOf(q), r);
    assert Readable(lines) == lines <==> n == |lines|;
    assert classes[..n] == Classes(lib, q, Readable(lines));
  }

  ghost predicate Classified(lib: Library, q: Query, lines: seq<string>, classes: seq<Option<Entry>>) {
    |classes| == |lines|
    && forall i {:trigger Wanted(lib, q, lines[i])} :: 0 <= i < |lines| ==> classes[i] == Wanted(lib, q, lines[i])
  }

  /** The entry of one line, if it is wanted. */
  method WantedEntry(lib: Library, q: Query, lines: seq<string>, i: nat, ghost classes: seq<Option<Entry>>)
    returns (e: Option<Entry>)
    requires Classified(lib, q, lines, classes) && i < |lines|
    ensures e == classes[i]
  {
    e := EntryOf(lib, lines[i]);
    if e.Some? {
      var ok := MatchesQuery(lib, e.value, q);
      if !ok {
        e := None;
      }
    }
    assert e == Wanted(lib, q, lines[i]);
  }

  /** The scanner gets through the first `n` lines. */
  ghost predicate Delivers(lines: seq<string>, n: nat) {
    && n <= |lines|
    && (forall i :: 0 <= i < n ==> |lines[i]| < LINE_LIMIT)
    && (n < |lines| ==> |lines[n]| >= LINE_LIMIT)
  }

  /** The page of the classified lines delivered; None when an overlong line comes before the match that
      ends the scan. */
  ghost function Outcome(classes: seq<Option<Entry>>, n: nat, offset: nat, limit: nat): Option<Found>
    requires n <= |classes|
  {
    var all := Kept(classes[..n]);
    if n < |classes| && |all| <= offset + limit then None else Some(Page(all, offset, limit))
  }

  lemma {:induction false} OutcomeAtStop(classes: seq<Option<Entry>>, n: nat, i: nat, offset: nat, limit: nat)
    requires i < n <= |classes| && classes[i].Some? && |Kept(classes[..i])| == offset + limit
    ensures Outcome(classes, n, offset, limit)
            == Some(Found(Taken(Kept(classes[..i]), offset), offset + limit + 1, true))
  {
    var readable := classes[..n];
    assert readable[..i + 1] == classes[..i] + [classes[i]];
    assert (classes[..i] + [classes[i]])[..i] == classes[..i];
    KeptPrefix(readable, i + 1);
    StopHere(Kept(readable), Kept(classes[..i]), classes[i].value, offset, limit);
  }

  lemma {:induction false} OutcomeAtEnd(classes: seq<Option<Entry>>, n: nat, offset: nat, limit: nat)
    requires n <= |classes| && |Kept(classes[..n])| <= offset + limit
    ensures Outcome(classes, n, offset, limit)
            == if n < |classes| then None
               else Some(Found(Taken(Kept(classes[..n]), offset), |Kept(classes[..n])|, false))
  {
    EndHere(Kept(classes[..n]), offset, limit);
  }

  /** Pagination of one more match: skip it, add it, or find the page full. */
  method Collect(q: Query, limit: nat, e: Entry, entries: seq<Entry>, matched: nat, ghost sofar: seq<Entry>)
    returns (entries': seq<Entry>, hasMore: bool)
    requires limit == LimitOf(q) && matched == |sofar| <= OffsetOf(q) + limit && entries == Taken(sofar, OffsetOf(q))
    ensures hasMore <==> |sofar| == OffsetOf(q) + limit
    ensures entries' == if hasMore then entries else Taken(sofar + [e], OffsetOf(q))
  {
    TakenGrows(sofar, e, OffsetOf(q));
    TakenSize(sofar, OffsetOf(q));
    if matched + 1 <= q.offset {
      return entries, false;
    }
    if |entries| >= limit {
      return entries, true;
    }
    return entries + [e], false;
  }

  /** How a scan can end before line `i`: with one match too many there, or with nothing left to read. */
  ghost predicate Ends(classes: seq<Option<Entry>>, n: nat, i: nat, offset: nat, limit: nat, r: Option<Found>) {
    var sofar := if i <= |classes| then Kept(classes[..i]) else [];
    if i < n then
      i < |classes| && classes[i].Some? && |sofar| == offset + limit
      && r == Some(Found(Taken(sofar, offset), |sofar| + 1, true))
    else
      i == n && |sofar| <= offset + limit
      && r == if n < |classes| then None else Some(Found(Taken(sofar, offset), |sofar|, false))
  }

  lemma {:induction false} EndsAtOutcome(
    classes: seq<Option<Entry>>, n: nat, i: nat, offset: nat, limit: nat, r: Option<Found>)
    requires n <= |classes| && Ends(classes, n, i, offset, limit, r)
    ensures r == Outcome(classes, n, offset, limit)
  {
    if i < n {
      OutcomeAtStop(classes, n, i, offset, limit);
    } else {
      OutcomeAtEnd(classes, n, offset, limit);
    }
  }

  method Scan(lib: Library, q: Query, lines: seq<string>, ghost classes: seq<Option<Entry>>, ghost n: nat)
    returns (r: Option<Found>, ghost end: nat)
    requires Classified(lib, q, lines, classes) && Delivers(lines, n)
    ensures Ends(classes, n, end, OffsetOf(q), LimitOf(q), r)
  {
    var limit := if q.limit <= 0 then 100 else q.limit;
    ghost var sofar: seq<Entry> := [];
    var entries: seq<Entry>, matched, hasMore, i := [], 0, false, 0;
    while i < |lines| && |lines[i]| < LINE_LIMIT && !hasMore
      invariant i <= n && sofar == Kept(classes[..i]) && entries == Taken(sofar, OffsetOf(q))
      invariant |sofar| <= OffsetOf(q) + limit && matched == |sofar| + if hasMore then 1 else 0
      invariant hasMore ==> i < n && classes[i].Some? && |sofar| == OffsetOf(q) + limit
      decreases |lines| - i, !hasMore
    {
      var e := WantedEntry(lib, q, lines, i, classes);
      assert classes[..i + 1][..i] == classes[..i];
      if e.Some? {
        entries, hasMore := Collect(q, limit, e.value, entries, matched, sofar);
        matched := matched + 1;
      }
      if !hasMore {
        sofar := if e.Some? then sofar + [e.value] else sofar;
        i := i + 1;
      }
    }
    end := i;
    r := if i < |lines| && !hasMore then None else Some(Found(entries, matched, hasMore));
  }

  /** The page of the filtered log; None when an overlong line comes before the match that ends the scan. */
  function SearchResult(lib: Library, q: Query, lines: seq<string>): Option<Found> {
    var all := Filtered(lib, q, Readable(lines));
    if Readable(lines) != lines && |all| <= OffsetOf(q) + LimitOf(q) then None
    else Some(Page(all, OffsetOf(q), LimitOf(q)))
  }

  lemma {:induction false} ReadablePrefix(lines: seq<string>)
    ensures |Readable(lines)| <= |lines| && Readable(lines) == lines[..|Readable(lines)|]
    ensures forall i :: 0 <= i < |Readable(lines)| ==> |lines[i]| < 1_048_576
    ensures |Readable(lines)| < |lines| ==> |lines[|Readable(lines)|]| >= 1_048_576
  {
    if lines != [] && |lines[0]| < LINE_LIMIT {
      ReadablePrefix(lines[1..]);
    }
  }

  lemma {:induction false} KeptPrefix(classes: seq<Option<Entry>>, i: nat)
    requires i <= |classes|
    ensures Kept(classes[..i]) <= Kept(classes)
  {
    if i < |classes| {
      var k := |classes| - 1;
      assert classes[..k][..i] == classes[..i];
      KeptPrefix(classes[..k], i);
    } else {
      assert classes[..i] == classes;
    }
  }

  // ----- the pages tile the log

  function Pages(all: seq<Entry>, limit: nat, count: nat): seq<Entry> {
    if count == 0 then [] else Pages(all, limit, count - 1) + Page(all, (count - 1) * limit, limit).entries
  }

  lemma {:induction false} PagesTile(all: seq<Entry>, limit: nat, count: nat)
    ensures Pages(all, limit, count) == all[..Min(count * limit, |all|)]
  {
    if count > 0 {
      PagesTile(all, limit, count - 1);
      var before := (count - 1) * limit;
      assert count * limit == before + limit;
      assert Min(before, |all|) <= Min(before + limit, |all|);
    } else {
      assert 0 * limit == 0;
    }
  }

  /** Following HasMore from page to page, the last page is reached exactly when everything was shown. */
  lemma {:induction false} PagesComplete(all: seq<Entry>, limit: nat, count: nat)
    requires limit > 0 && count > 0
    ensures !Page(all, (count - 1) * limit, limit).hasMore <==> Pages(all, limit, count) == all
  {
    PagesTile(all, limit, count);
    assert count * limit == (count - 1) * limit + limit;
  }

  // ----- the same of searches

  function PageQuery(q: Query, offset: int, limit: int): Query {
    q.(offset := offset, limit := limit)
  }

  /** What there is to find does not depend on the page asked for. */
  lemma {:induction false} FilteredSame(lib: Library, q: Query, offset: int, limit: int, lines: seq<string>)
    ensures Filtered(lib, PageQuery(q, offset, limit), lines) == Filtered(lib, q, lines)
  {
    assert Classes(lib, PageQuery(q, offset, limit), lines) == Classes(lib, q, lines);
  }

  /** The entries that searches at offsets 0, limit, 2 * limit, ... return; None once one of them fails. */
  function SearchPages(lib: Library, q: Query, lines: seq<string>, limit: nat, count: nat): Option<seq<Entry>> {
    if count == 0 then Some([])
    else
      var last := SearchResult(lib, PageQuery(q, (count - 1) * limit, limit), lines);
      match (SearchPages(lib, q, lines, limit, count - 1), last)
      case (Some(before), Some(found)) => Some(before + found.entries)
      case _ => None
  }

  lemma {:induction false} PageFound(lib: Library, q: Query, lines: seq<string>, limit: nat, k: nat)
    requires limit > 0
    ensures var all := Filtered(lib, q, Readable(lines));
            SearchResult(lib, PageQuery(q, k * limit, limit), lines)
            == if Readable(lines) != lines && |all| <= (k + 1) * limit then None else Some(Page(all, k * limit, limit))
  {
    FilteredSame(lib, q, k * limit, limit, Readable(lines));
    assert k * limit >= 0 && (k + 1) * limit == k * limit + limit;
  }

  /** The searches for the first pages return a prefix of the filtered log, in order and without a gap. They
      fail exactly when the scanner meets an overlong line before it has seen more than these pages hold. */
  lemma {:induction false} SearchesTile(lib: Library, q: Query, lines: seq<string>, limit: nat, count: nat)
    requires limit > 0 && count > 0
    ensures var all := Filtered(lib, q, Readable(lines));
            SearchPages(lib, q, lines, limit, count)
            == if Readable(lines) != lines && |all| <= count * limit then None
               else Some(all[..Min(count * limit, |all|)])
  {
    var all := Filtered(lib, q, Readable(lines));
    var before, upTo := (count - 1) * limit, count * limit;
    assert upTo == before + limit && before >= 0;
    PageFound(lib, q, lines, limit, count - 1);
    OneMorePage(all, before, limit);
    if count > 1 {
      SearchesTile(lib, q, lines, limit, count - 1);
    } else {
      assert before == 0;
    }
  }

  lemma OneMorePage(all: seq<Entry>, before: nat, limit: nat)
    ensures all[..Min(before, |all|)] + Page(all, before, limit).entries == all[..Min(before + limit, |all|)]
  {
  }

  lemma PrefixIsAll(all: seq<Entry>, n: nat)
    ensures all[..Min(n, |all|)] == all <==> |all| <= n
  {
    assert all[..|all|] == all;
  }

  /** In a log the scanner can read, a search says that there is no more exactly when the pages so far are the
      whole filtered log. */
  lemma {:induction false} SearchesComplete(lib: Library, q: Query, lines: seq<string>, limit: nat, count: nat)
    requires limit > 0 && count > 0 && Readable(lines) == lines
    ensures var last := SearchResult(lib, PageQuery(q, (count - 1) * limit, limit), lines);
            && last.Some?
            && (!last.value.hasMore <==> SearchPages(lib, q, lines, limit, count) == Some(Filtered(lib, q, lines)))
  {
    PageFound(lib, q, lines, limit, count - 1);
    SearchesTile(lib, q, lines, limit, count);
    var upTo := count * limit;
    assert upTo == (count - 1) * limit + limit;
    PrefixIsAll(Filtered(lib, q, lines), upTo);
  }

  // ----- what is searched

  ghost predicate SomeContains(lib: Library, texts: seq<string>, pattern: string) {
    exists t :: t in texts && Detector.Contains(lib.lower(t), pattern)
  }

  lemma AnyConcat(lib: Library, a: seq<string>, b: seq<string>, pattern: string)
    ensures AnyContains(lib, a + b, pattern) <==> AnyContains(lib, a, pattern) || AnyContains(lib, b, pattern)
  {
    if i :| 0 <= i < |a| && Detector.Contains(lib.lower(a[i]), pattern) {
      assert (a + b)[i] == a[i];
    }
    if i :| 0 <= i < |b| && Detector.Contains(lib.lower(b[i]), pattern) {
      assert (a + b)[|a| + i] == b[i];
    }
  }

  lemma AnyIsSome(lib: Library, texts: seq<string>, pattern: string)
    ensures AnyContains(lib, texts, pattern) <==> SomeContains(lib, texts, pattern)
  {
  }

  /** A pattern is looked for in the direction, the host, the path, and every category, severity, rule, kind of
      personal data and kind of secret of an entry. */
  lemma {:induction false} PatternSearched(lib: Library, e: Entry, pattern: string)
    ensures AnyContains(lib, Fields(e), pattern) <==>
            || Detector.Contains(lib.lower(e.direction), pattern)
            || Detector.Contains(lib.lower(e.host), pattern)
            || Detector.Contains(lib.lower(e.path), pattern)
            || SomeContains(lib, e.categories, pattern) || SomeContains(lib, e.severities, pattern)
            || SomeContains(lib, e.rules, pattern) || SomeContains(lib, e.piiCategories, pattern)
            || SomeContains(lib, e.secretTypes, pattern)
  {
    var three := [e.direction, e.host, e.path];
    assert three[0] == e.direction && three[1] == e.host && three[2] == e.path;
    AnyConcat(lib, three, e.categories, pattern);
    AnyConcat(lib, three + e.categories, e.severities, pattern);
    AnyConcat(lib, three + e.categories + e.severities, e.rules, pattern);
    AnyConcat(lib, three + e.categories + e.severities + e.rules, e.piiCategories, pattern);
    AnyConcat(lib, three + e.categories + e.severities + e.rules + e.piiCategories, e.secretTypes, pattern);
    AnyIsSome(lib, e.categories, pattern);
    AnyIsSome(lib, e.severities, pattern);
    AnyIsSome(lib, e.rules, pattern);
    AnyIsSome(lib, e.piiCategories, pattern);
    AnyIsSome(lib, e.secretTypes, pattern);
  }

  lemma {:induction false} KeptConcat(a: seq<Option<Entry>>, b: seq<Option<Entry>>)
    ensures Kept(a + b) == Kept(a) + Kept(b)
  {
    if b == [] {
      assert a + b == a;
    } else {
      var p, x := b[..|b| - 1], b[|b| - 1];
      KeptConcat(a, p);
      assert p + [x] == b && a + b == a + p + [x];
      KeptAppended(a + p, x);
      KeptAppended(p, x);
      if x.Some? {
        Associative(Kept(a), Kept(p), [x.value]);
      }
    }
  }

  lemma KeptAppended(a: seq<Option<Entry>>, x: Option<Entry>)
    ensures Kept(a + [x]) == match x case Some(e) => Kept(a) + [e] case None => Kept(a)
  {
    assert (a + [x])[..|a|] == a;
  }

  /** The filtered log goes line by line ... */
  lemma {:induction false} FilteredConcat(lib: Library, q: Query, a: seq<string>, b: seq<string>)
    ensures Filtered(lib, q, a + b) == Filtered(lib, q, a) + Filtered(lib, q, b)
  {
    ClassesConcat(lib, q, a, b);
    KeptConcat(Classes(lib, q, a), Classes(lib, q, b));
  }

  lemma ClassesConcat(lib: Library, q: Query, a: seq<string>, b: seq<string>)
    ensures Classes(lib, q, a + b) == Classes(lib, q, a) + Classes(lib, q, b)
  {
    var all, parts := Classes(lib, q, a + b), Classes(lib, q, a) + Classes(lib, q, b);
    forall i | 0 <= i < |a| + |b| ensures all[i] == parts[i] {
      assert (a + b)[i] == if i < |a| then a[i] else b[i - |a|];
    }
  }

  /** ... and of a line it has the entry, when the line is not empty, parses, and matches. A carriage return at its
      end does not belong to it. */
  lemma {:induction false} FilteredOne(lib: Library, q: Query, line: string)
    requires line != "" ==> line[|line| - 1] != '\r'
    ensures Filtered(lib, q, [line]) == Filtered(lib, q, [line + "\r"])
    ensures forall e :: Filtered(lib, q, [line]) == [e] <==>
                          line != "" && lib.unmarshal(line) == Some(e) && Matches(lib, e, q)
    ensures Filtered(lib, q, [line]) == [] <==>
            line == "" || lib.unmarshal(line).None? || !Matches(lib, lib.unmarshal(line).value, q)
  {
    OneLine(lib, q, line);
    OneLine(lib, q, line + "\r");
    TokenOfLine(line);
  }

  lemma TokenOfLine(line: string)
    requires line != "" ==> line[|line| - 1] != '\r'
    ensures Token(line) == line && Token(line + "\r") == line
  {
    assert (line + "\r")[..|line|] == line;
  }

  lemma OneLine(lib: Library, q: Query, line: string)
    ensures Filtered(lib, q, [line]) == match Wanted(lib, q, line) case Some(e) => [e] case None => []
  {
    var w := Wanted(lib, q, line);
    assert Classes(lib, q, [line]) == [w];
    KeptAppended([], w);
    assert [] + [w] == [w];
  }

  // ----- what a search finds

  /** The filtered log is the matching entries of its lines. */
  lemma {:induction false} InFiltered(lib: Library, q: Query, lines: seq<string>, e: Entry)
    ensures e in Filtered(lib, q, lines) <==>
            exists line :: line in lines && EntryOf(lib, line) == Some(e) && Matches(lib, e, q)
  {
    if lines == [] {
      assert Classes(lib, q, lines) == [];
    } else {
      var k := |lines| - 1;
      InFiltered(lib, q, lines[..k], e);
      OneLine(lib, q, lines[k]);
      FilteredConcat(lib, q, lines[..k], [lines[k]]);
      assert lines[..k] + [lines[k]] == lines;
    }
  }

  /** An entry is found exactly when some line of the log holds it and it is what was asked for: blocked, of the
      direction, on a host with the given part, between the two instants, and with one of the severities and one
      of the categories. A search without a pattern reads nothing else of an entry. */
  lemma {:induction false} FoundIff(lib: Library, q: Query, lines: seq<string>, e: Entry)
    requires q.pattern == ""
    ensures e in Filtered(lib, q, lines) <==>
            && (exists line :: line in lines && EntryOf(lib, line) == Some(e))
            && (!q.blockedOnly || e.blocked)
            && (q.direction == "" || lib.equalFold(e.direction, q.direction))
            && (q.host == "" || Detector.Contains(lib.lower(e.host), lib.lower(q.host)))
            && (q.from.None? || e.timestamp >= q.from.value) && (q.to.None? || e.timestamp <= q.to.value)
            && (|q.severities| == 0 || exists s, w :: s in e.severities && w in q.severities && lib.equalFold(s, w))
            && (|q.categories| == 0 || exists c, w :: c in e.categories && w in q.categories && lib.equalFold(c, w))
  {
    InFiltered(lib, q, lines, e);
  }

  /** Adding a pattern keeps exactly the entries that have it in one of the texts of PatternSearched. */
  lemma {:induction false} PatternNarrows(lib: Library, q: Query, lines: seq<string>, e: Entry)
    requires q.pattern != ""
    ensures e in Filtered(lib, q, lines) <==>
            e in Filtered(lib, q.(pattern := ""), lines) && AnyContains(lib, Fields(e), lib.lower(q.pattern))
  {
    InFiltered(lib, q, lines, e);
    InFiltered(lib, q.(pattern := ""), lines, e);
  }

  /** Without a positive limit a page has a hundred entries, and a negative offset is none. */
  lemma DefaultPage(lib: Library, q: Query, lines: seq<string>)
    requires q.limit <= 0 && q.offset <= 0
    ensures SearchResult(lib, q, lines) == SearchResult(lib, PageQuery(q, 0, 100), lines)
  {
    FilteredSame(lib, q, 0, 100, Readable(lines));
  }
}
