/**
 * Find in the document (`computeMatches`, `groupMatchesByLine`, `step` and
 * the choice of the active match in search-controller.js). A search visits
 * the lines of the document, or of the selection scope, and collects the
 * literal or regular-expression hits that lie inside the scope. The regular
 * expression engine and the clock are parameters: `exec(text, from)` is
 * `regex.exec` with `lastIndex == from`, and the clock is described by the
 * number of timeout checks that still find the deadline ahead.
 */
module Search {
  import opened JsString
  import opened Outline
  import opened ReplacementPattern

  // ----- the scope -----

  /** `limitStart`: a scoped search starts its first line at the scope's
      start column. */
  function LimitStart(scope: Option<Selection>, l: nat): (r: nat)
    ensures scope.None? ==> r == 0
  {
    if scope.Some? && l == scope.value.start.line then scope.value.start.ch else 0
  }

  /** `limitEnd`: a scoped search ends its last line at the scope's end
      column; other lines are searched to their end. */
  function LimitEnd(scope: Option<Selection>, l: nat, len: nat): (r: nat)
    ensures scope.None? ==> r == len
  {
    if scope.Some? && l == scope.value.end.line then scope.value.end.ch else len
  }

  /** `startLine`. */
  function FirstLine(scope: Option<Selection>): nat
  {
    if scope.Some? then scope.value.start.line else 0
  }

  /** One past the last line visited: the loop runs while
      `lineIndex <= endLine && lineIndex < lines.length`. */
  function StopLine(scope: Option<Selection>, n: nat): (r: nat)
    ensures r <= n
    ensures scope.None? ==> r == n
    ensures scope.Some? ==> r == if scope.value.end.line < n then scope.value.end.line + 1 else n
  {
    if scope.Some? && scope.value.end.line < n then scope.value.end.line + 1 else n
  }

  /** The text compared against the needle: the line itself, or its lower
      case when the search ignores case. */
  function Fold(s: string, caseSensitive: bool): (r: string)
    ensures |r| == |s|
  {
    if caseSensitive then s else ToLower(s)
  }

  // ----- literal search of one line -----

  /** The hit loop of the literal search from `index` on: each hit that ends
      within `limitEnd` is reported, and the search resumes after it. */
  function LiteralFrom(text: string, haystack: string, needle: string, l: nat, index: int, limitEnd: nat): seq<Match>
    requires |needle| > 0 && |haystack| == |text|
    requires index == -1 || OccursAt(haystack, needle, index)
    decreases if index == -1 then 0 else |haystack| + 1 - index
  {
    if index == -1 || index + |needle| > limitEnd then []
    else
      var end := index + |needle|;
      [Match(l, index, end, text[index..end], None, None)]
        + LiteralFrom(text, haystack, needle, l, IndexOf(haystack, needle, end), limitEnd)
  }

  // ----- regular-expression search of one line -----

  /** One result of `regex.exec`: where the match starts, how long it is
      (its text, `match[0]`, is the slice it covers), the capture groups
      and the named groups. */
  datatype RawMatch = RawMatch(index: nat, length: nat, groups: seq<Option<string>>,
                               named: Option<map<string, Option<string>>>)

  /** `regex.exec(text)` with `regex.lastIndex == from`. */
  type Exec = (string, nat) -> Option<RawMatch>

  /** What the engine guarantees: a match starts at or after `lastIndex`
      and lies within the text. */
  ghost predicate ExecSound(exec: Exec)
  {
    forall t: string, from: nat :: from <= |t| && exec(t, from).Some? ==>
      from <= exec(t, from).value.index && exec(t, from).value.index + exec(t, from).value.length <= |t|
  }

  /** The `exec` loop of one line from `lastIndex == from`: an empty match
      moves one unit on (and ends the line past its end), a match outside
      the limits is skipped, any other is reported. */
  function RegexFrom(exec: Exec, text: string, l: nat, from: nat, limitStart: nat, limitEnd: nat): seq<Match>
    requires ExecSound(exec) && from <= |text|
    decreases |text| + 1 - from
  {
    match exec(text, from)
    case None => []
    case Some(r) =>
      var end := r.index + r.length;
      if r.length == 0 then
        if r.index + 1 > |text| then [] else RegexFrom(exec, text, l, r.index + 1, limitStart, limitEnd)
      else if r.index < limitStart || end > limitEnd then
        RegexFrom(exec, text, l, end, limitStart, limitEnd)
      else
        [Match(l, r.index, end, text[r.index..end], if |r.groups| > 0 then Some(r.groups) else None, r.named)]
          + RegexFrom(exec, text, l, end, limitStart, limitEnd)
  }

  // ----- the whole search -----

  /** A search of a non-empty query with a well-behaved engine. */
  ghost predicate Searchable(query: string, exec: Exec)
  {
    |query| > 0 && ExecSound(exec)
  }

  /** Whether line `l` is searched at all (`limitStart < limitEnd`). */
  predicate Searched(lines: seq<Line>, l: nat, scope: Option<Selection>)
    requires l < |lines|
  {
    LimitStart(scope, l) < LimitEnd(scope, l, |lines[l].text|)
  }

  /** The hits of line `l`. */
  function LineMatches(lines: seq<Line>, l: nat, query: string, useRegex: bool, caseSensitive: bool,
                       scope: Option<Selection>, exec: Exec): seq<Match>
    requires l < |lines| && Searchable(query, exec)
  {
    var text := lines[l].text;
    var limitStart := LimitStart(scope, l);
    var limitEnd := LimitEnd(scope, l, |text|);
    if !Searched(lines, l, scope) then []
    else if useRegex then RegexFrom(exec, text, l, 0, limitStart, limitEnd)
    else
      var haystack := Fold(text, caseSensitive);
      var needle := Fold(query, caseSensitive);
      LiteralFrom(text, haystack, needle, l, IndexOf(haystack, needle, limitStart), limitEnd)
  }

  /** The timeout checks line `l` makes: one per hit and one after the line,
      none for a line that is skipped. */
  function LineChecks(lines: seq<Line>, l: nat, query: string, useRegex: bool, caseSensitive: bool,
                      scope: Option<Selection>, exec: Exec): nat
    requires l < |lines| && Searchable(query, exec)
  {
    if Searched(lines, l, scope) then |LineMatches(lines, l, query, useRegex, caseSensitive, scope, exec)| + 1
    else 0
  }

  /** The hits of lines `first` up to (not including) `upTo`, in order. */
  function MatchesBetween(lines: seq<Line>, first: nat, upTo: nat, query: string, useRegex: bool,
                          caseSensitive: bool, scope: Option<Selection>, exec: Exec): seq<Match>
    requires upTo <= |lines| && Searchable(query, exec)
    decreases upTo
  {
    if upTo <= first then []
    else MatchesBetween(lines, first, upTo - 1, query, useRegex, caseSensitive, scope, exec)
         + LineMatches(lines, upTo - 1, query, useRegex, caseSensitive, scope, exec)
  }

  /** The timeout checks of lines `first` up to `upTo`. */
  function ChecksBetween(lines: seq<Line>, first: nat, upTo: nat, query: string, useRegex: bool,
                         caseSensitive: bool, scope: Option<Selection>, exec: Exec): nat
    requires upTo <= |lines| && Searchable(query, exec)
    decreases upTo
  {
    if upTo <= first then 0
    else ChecksBetween(lines, first, upTo - 1, query, useRegex, caseSensitive, scope, exec)
         + LineChecks(lines, upTo - 1, query, useRegex, caseSensitive, scope, exec)
  }

  const TIMEOUT_PREFIX := "検索がタイムアウトしました ("

  /** The error reported when the search runs out of time; `duration` is the
      configured timeout as the message writes it. */
  function TimeoutMessage(duration: string): (r: string)
    ensures TIMEOUT_PREFIX <= r
  {
    TIMEOUT_PREFIX + duration + ")"
  }

  datatype SearchResult = SearchResult(matches: seq<Match>, regexError: Option<string>)

  /** `computeMatches`. `compileError` is the message of the `RegExp`
      constructor when it rejects the query; `deadline`, when the timeout is
      enabled, is the number of timeout checks that find the clock within
      the deadline. */
  function SearchLines(lines: seq<Line>, query: string, useRegex: bool, caseSensitive: bool,
                       scope: Option<Selection>, exec: Exec, compileError: Option<string>,
                       deadline: Option<nat>, duration: string): (r: SearchResult)
    requires ExecSound(exec)
    ensures r.regexError.Some? ==> r.matches == []
    ensures query == [] ==> r == SearchResult([], None)
  {
    if query == [] then SearchResult([], None)
    else if useRegex && compileError.Some? then SearchResult([], compileError)
    else
      var first := FirstLine(scope);
      var stop := StopLine(scope, |lines|);
      if deadline.Some? && deadline.value < ChecksBetween(lines, first, stop, query, useRegex, caseSensitive, scope, exec)
      then SearchResult([], Some(TimeoutMessage(duration)))
      else SearchResult(MatchesBetween(lines, first, stop, query, useRegex, caseSensitive, scope, exec), None)
  }

  // ----- what a search finds -----

  /** `a` comes before `b` and does not overlap it. */
  predicate Precedes(a: Match, b: Match)
  {
    a.line < b.line || (a.line == b.line && a.end <= b.start)
  }

  /** The matches are in document order and pairwise disjoint. */
  predicate Ordered(ms: seq<Match>)
  {
    forall i, j {:trigger Precedes(ms[i], ms[j])} :: 0 <= i < j < |ms| ==> Precedes(ms[i], ms[j])
  }

  /** A reported match lies on an existing line, within that line's search
      limits, is not empty, and its text is what it covers. */
  predicate Found(lines: seq<Line>, scope: Option<Selection>, m: Match)
  {
    && m.line < |lines|
    && LimitStart(scope, m.line) <= m.start < m.end <= LimitEnd(scope, m.line, |lines[m.line].text|)
    && m.end <= |lines[m.line].text|
    && m.text == lines[m.line].text[m.start..m.end]
  }

  /** A literal hit of line `l`: the needle occurs in the folded text there. */
  predicate LiteralHit(text: string, haystack: string, needle: string, l: nat, from: int, limitEnd: nat, m: Match)
  {
    && m.line == l && from <= m.start && m.end == m.start + |needle| <= limitEnd
    && OccursAt(haystack, needle, m.start) && m.end <= |text|
    && m.text == text[m.start..m.end] && m.groupValues.None? && m.namedGroups.None?
  }

  /** The hits of one line do not overlap. */
  predicate Disjoint(ms: seq<Match>)
  {
    forall i, j :: 0 <= i < j < |ms| ==> ms[i].end <= ms[j].start
  }

  predicate LiteralHits(text: string, haystack: string, needle: string, l: nat, from: int, limitEnd: nat, ms: seq<Match>)
  {
    forall j :: 0 <= j < |ms| ==> LiteralHit(text, haystack, needle, l, from, limitEnd, ms[j])
  }

  lemma {:induction false} LiteralFromSound(text: string, haystack: string, needle: string, l: nat, index: int, limitEnd: nat)
    requires |needle| > 0 && |haystack| == |text|
    requires index == -1 || OccursAt(haystack, needle, index)
    ensures var r := LiteralFrom(text, haystack, needle, l, index, limitEnd);
            LiteralHits(text, haystack, needle, l, index, limitEnd, r) && Disjoint(r)
    decreases if index == -1 then 0 else |haystack| + 1 - index
  {
    if !(index == -1 || index + |needle| > limitEnd) {
      var end := index + |needle|;
      var next := IndexOf(haystack, needle, end);
      LiteralFromSound(text, haystack, needle, l, next, limitEnd);
      var rest := LiteralFrom(text, haystack, needle, l, next, limitEnd);
      if next == -1 {
        assert rest == [];
      } else {
        assert end <= next;
      }
      LiteralHitsCons(text, haystack, needle, l, index, next, limitEnd, rest);
    }
  }

  /** Putting the hit at `index` in front of the hits from `next` on. */
  lemma LiteralHitsCons(text: string, haystack: string, needle: string, l: nat, index: nat, next: int,
                        limitEnd: nat, rest: seq<Match>)
    requires |haystack| == |text| && OccursAt(haystack, needle, index) && index + |needle| <= limitEnd
    requires LiteralHits(text, haystack, needle, l, next, limitEnd, rest) && Disjoint(rest)
    requires rest == [] || index + |needle| <= next
    ensures var r := [Match(l, index, index + |needle|, text[index..index + |needle|], None, None)] + rest;
            LiteralHits(text, haystack, needle, l, index, limitEnd, r) && Disjoint(r)
  {
    var r := [Match(l, index, index + |needle|, text[index..index + |needle|], None, None)] + rest;
    forall j | 0 <= j < |r|
      ensures LiteralHit(text, haystack, needle, l, index, limitEnd, r[j])
    {
      if j > 0 {
        assert r[j] == rest[j - 1];
        assert LiteralHit(text, haystack, needle, l, next, limitEnd, rest[j - 1]);
      }
    }
    forall i, j | 0 <= i < j < |r|
      ensures r[i].end <= r[j].start
    {
      if i > 0 { assert r[i] == rest[i - 1]; }
      assert r[j] == rest[j - 1];
      assert LiteralHit(text, haystack, needle, l, next, limitEnd, rest[j - 1]);
    }
  }

  /** Position `k` lies inside one of the matches. */
  predicate Covers(ms: seq<Match>, k: nat)
  {
    exists j :: 0 <= j < |ms| && ms[j].start <= k < ms[j].end
  }

  /** The literal search is greedy from the left: every occurrence of the
      needle at or after `from` that ends within `limitEnd` is a reported hit
      or overlaps one. */
  lemma {:induction false} LiteralFromComplete(text: string, haystack: string, needle: string, l: nat,
                                               from: nat, limitEnd: nat, k: nat)
    requires |needle| > 0 && |haystack| == |text|
    requires from <= k && OccursAt(haystack, needle, k) && k + |needle| <= limitEnd
    ensures Covers(LiteralFrom(text, haystack, needle, l, IndexOf(haystack, needle, from), limitEnd), k)
    decreases |haystack| - from
  {
    var index := IndexOf(haystack, needle, from);
    var r := LiteralFrom(text, haystack, needle, l, index, limitEnd);
    IndexOfFirst(haystack, needle, from);
    assert index != -1 && index <= k;
    var end := index + |needle|;
    var head := Match(l, index, end, text[index..end], None, None);
    var rest := LiteralFrom(text, haystack, needle, l, IndexOf(haystack, needle, end), limitEnd);
    assert r == [head] + rest;
    if end <= k {
      LiteralFromComplete(text, haystack, needle, l, end, limitEnd, k);
      CoversCons(head, rest, k);
    } else {
      assert r[0].start <= k < r[0].end;
    }
  }

  lemma CoversCons(head: Match, rest: seq<Match>, k: nat)
    requires Covers(rest, k)
    ensures Covers([head] + rest, k)
  {
    var j :| 0 <= j < |rest| && rest[j].start <= k < rest[j].end;
    assert ([head] + rest)[j + 1] == rest[j];
  }

  /** A regex hit of line `l`. */
  predicate RegexHit(text: string, l: nat, from: nat, limitStart: nat, limitEnd: nat, m: Match)
  {
    && m.line == l && from <= m.start && limitStart <= m.start < m.end <= limitEnd
    && m.end <= |text| && m.text == text[m.start..m.end]
    && (m.groupValues.Some? ==> |m.groupValues.value| > 0)
  }

  predicate RegexHits(text: string, l: nat, from: nat, limitStart: nat, limitEnd: nat, ms: seq<Match>)
  {
    forall j :: 0 <= j < |ms| ==> RegexHit(text, l, from, limitStart, limitEnd, ms[j])
  }

  lemma {:induction false} RegexFromSound(exec: Exec, text: string, l: nat, from: nat, limitStart: nat, limitEnd: nat)
    requires ExecSound(exec) && from <= |text|
    ensures var r := RegexFrom(exec, text, l, from, limitStart, limitEnd);
            RegexHits(text, l, from, limitStart, limitEnd, r) && Disjoint(r)
    decreases |text| + 1 - from
  {
    match exec(text, from)
    case None =>
    case Some(m) =>
      var end := m.index + m.length;
      assert from <= m.index && end <= |text|;
      var r := RegexFrom(exec, text, l, from, limitStart, limitEnd);
      if m.length == 0 {
        if m.index + 1 <= |text| {
          var rest := RegexFrom(exec, text, l, m.index + 1, limitStart, limitEnd);
          RegexFromSound(exec, text, l, m.index + 1, limitStart, limitEnd);
          assert r == rest;
          RegexHitsLater(text, l, from, m.index + 1, limitStart, limitEnd, rest);
        }
      } else {
        var rest := RegexFrom(exec, text, l, end, limitStart, limitEnd);
        RegexFromSound(exec, text, l, end, limitStart, limitEnd);
        if m.index < limitStart || end > limitEnd {
          assert r == rest;
          RegexHitsLater(text, l, from, end, limitStart, limitEnd, rest);
        } else {
          var head := Match(l, m.index, end, text[m.index..end], if |m.groups| > 0 then Some(m.groups) else None, m.named);
          assert r == [head] + rest;
          RegexHitsCons(text, l, from, limitStart, limitEnd, head, rest);
        }
      }
  }

  /** Hits found from a later position are hits from an earlier one. */
  lemma RegexHitsLater(text: string, l: nat, from: nat, later: nat, limitStart: nat, limitEnd: nat, ms: seq<Match>)
    requires from <= later && RegexHits(text, l, later, limitStart, limitEnd, ms)
    ensures RegexHits(text, l, from, limitStart, limitEnd, ms)
  {
    forall j | 0 <= j < |ms| ensures RegexHit(text, l, from, limitStart, limitEnd, ms[j]) {
      assert RegexHit(text, l, later, limitStart, limitEnd, ms[j]);
    }
  }

  /** A reported hit in front of the hits after it. */
  lemma RegexHitsCons(text: string, l: nat, from: nat, limitStart: nat, limitEnd: nat, head: Match, rest: seq<Match>)
    requires RegexHit(text, l, from, limitStart, limitEnd, head)
    requires RegexHits(text, l, head.end, limitStart, limitEnd, rest) && Disjoint(rest)
    ensures RegexHits(text, l, from, limitStart, limitEnd, [head] + rest) && Disjoint([head] + rest)
  {
    var r := [head] + rest;
    forall j | 0 <= j < |r| ensures RegexHit(text, l, from, limitStart, limitEnd, r[j]) {
      if j > 0 {
        assert r[j] == rest[j - 1];
        assert RegexHit(text, l, head.end, limitStart, limitEnd, rest[j - 1]);
      }
    }
    forall i, j | 0 <= i < j < |r| ensures r[i].end <= r[j].start {
      assert r[j] == rest[j - 1];
      assert RegexHit(text, l, head.end, limitStart, limitEnd, rest[j - 1]);
      if i > 0 { assert r[i] == rest[i - 1]; }
    }
  }

  /** Folding commutes with slicing. */
  lemma FoldSlice(s: string, caseSensitive: bool, i: nat, j: nat)
    requires i <= j <= |s|
    ensures Fold(s, caseSensitive)[i..j] == Fold(s[i..j], caseSensitive)
  {
  }

  /** Every match lies on a line in `[first, upTo)` and is found there. */
  predicate AllFound(lines: seq<Line>, scope: Option<Selection>, first: nat, upTo: nat, ms: seq<Match>)
  {
    forall j :: 0 <= j < |ms| ==> first <= ms[j].line < upTo && Found(lines, scope, ms[j])
  }

  /** Every match is the query, up to case when case is ignored. */
  predicate AllFold(ms: seq<Match>, query: string, caseSensitive: bool)
  {
    forall j :: 0 <= j < |ms| ==> Fold(ms[j].text, caseSensitive) == Fold(query, caseSensitive)
  }

  /** Matches of line `l` of text `text` inside `[limitStart, limitEnd)`. */
  predicate TextHits(text: string, l: nat, limitStart: nat, limitEnd: nat, ms: seq<Match>)
  {
    forall j :: 0 <= j < |ms| ==>
      && ms[j].line == l && limitStart <= ms[j].start < ms[j].end <= limitEnd
      && ms[j].end <= |text| && ms[j].text == text[ms[j].start..ms[j].end]
  }

  /** The literal hits of a line lie inside its limits and are the query up
      to case. */
  lemma LiteralLineSound(text: string, l: nat, query: string, caseSensitive: bool, limitStart: nat, limitEnd: nat)
    requires |query| > 0
    ensures var haystack := Fold(text, caseSensitive);
            var needle := Fold(query, caseSensitive);
            var r := LiteralFrom(text, haystack, needle, l, IndexOf(haystack, needle, limitStart), limitEnd);
            TextHits(text, l, limitStart, limitEnd, r) && Disjoint(r) && AllFold(r, query, caseSensitive)
  {
    var haystack := Fold(text, caseSensitive);
    var needle := Fold(query, caseSensitive);
    var index := IndexOf(haystack, needle, limitStart);
    LiteralFromSound(text, haystack, needle, l, index, limitEnd);
    var r := LiteralFrom(text, haystack, needle, l, index, limitEnd);
    if index != -1 {
      assert index + |needle| <= |haystack|;
      assert limitStart <= index;
    }
    forall j | 0 <= j < |r|
      ensures limitStart <= r[j].start
      ensures Fold(r[j].text, caseSensitive) == Fold(query, caseSensitive)
    {
      assert LiteralHit(text, haystack, needle, l, index, limitEnd, r[j]);
      FoldSlice(text, caseSensitive, r[j].start, r[j].end);
    }
  }

  lemma RegexLineSound(exec: Exec, text: string, l: nat, limitStart: nat, limitEnd: nat)
    requires ExecSound(exec)
    ensures var r := RegexFrom(exec, text, l, 0, limitStart, limitEnd);
            TextHits(text, l, limitStart, limitEnd, r) && Disjoint(r)
  {
    RegexFromSound(exec, text, l, 0, limitStart, limitEnd);
    var r := RegexFrom(exec, text, l, 0, limitStart, limitEnd);
    forall j | 0 <= j < |r|
      ensures RegexHit(text, l, 0, limitStart, limitEnd, r[j])
    {
    }
  }

  /** The matches of lines `[first, upTo)` are found, ordered and, for a
      literal search, the query up to case. */
  predicate SoundRange(lines: seq<Line>, scope: Option<Selection>, first: nat, upTo: nat, query: string,
                       useRegex: bool, caseSensitive: bool, ms: seq<Match>)
  {
    AllFound(lines, scope, first, upTo, ms) && Ordered(ms) && (!useRegex ==> AllFold(ms, query, caseSensitive))
  }

  /** Every hit of line `l` is found there, the hits are ordered, and a
      literal hit is the query up to case when case is ignored. */
  lemma LineMatchesSound(lines: seq<Line>, l: nat, query: string, useRegex: bool, caseSensitive: bool,
                         scope: Option<Selection>, exec: Exec)
    requires l < |lines| && Searchable(query, exec)
    ensures SoundRange(lines, scope, l, l + 1, query, useRegex, caseSensitive,
                       LineMatches(lines, l, query, useRegex, caseSensitive, scope, exec))
  {
    var text := lines[l].text;
    var limitStart := LimitStart(scope, l);
    var limitEnd := LimitEnd(scope, l, |text|);
    var r := LineMatches(lines, l, query, useRegex, caseSensitive, scope, exec);
    if Searched(lines, l, scope) {
      if useRegex {
        RegexLineSound(exec, text, l, limitStart, limitEnd);
      } else {
        LiteralLineSound(text, l, query, caseSensitive, limitStart, limitEnd);
      }
      assert TextHits(text, l, limitStart, limitEnd, r) && Disjoint(r);
      forall j | 0 <= j < |r|
        ensures l <= r[j].line < l + 1 && Found(lines, scope, r[j])
      {
      }
      forall i, j | 0 <= i < j < |r|
        ensures Precedes(r[i], r[j])
      {
      }
    }
  }

  /** `MatchesBetween` takes the hits of one more line. */
  lemma MatchesBetweenUnfold(lines: seq<Line>, first: nat, upTo: nat, query: string, useRegex: bool,
                             caseSensitive: bool, scope: Option<Selection>, exec: Exec)
    requires first < upTo <= |lines| && Searchable(query, exec)
    ensures MatchesBetween(lines, first, upTo, query, useRegex, caseSensitive, scope, exec)
            == MatchesBetween(lines, first, upTo - 1, query, useRegex, caseSensitive, scope, exec)
               + LineMatches(lines, upTo - 1, query, useRegex, caseSensitive, scope, exec)
  {
  }

  /** The matches of earlier lines followed by those of line `upTo - 1`. */
  lemma FoundConcat(lines: seq<Line>, scope: Option<Selection>, first: nat, upTo: nat, query: string,
                    useRegex: bool, caseSensitive: bool, prev: seq<Match>, last: seq<Match>)
    requires first < upTo
    requires SoundRange(lines, scope, first, upTo - 1, query, useRegex, caseSensitive, prev)
    requires SoundRange(lines, scope, upTo - 1, upTo, query, useRegex, caseSensitive, last)
    ensures SoundRange(lines, scope, first, upTo, query, useRegex, caseSensitive, prev + last)
  {
    var r := prev + last;
    forall i, j | 0 <= i < j < |r|
      ensures Precedes(r[i], r[j])
    {
      if j >= |prev| {
        assert r[j] == last[j - |prev|];
        if i >= |prev| { assert r[i] == last[i - |prev|]; }
      }
    }
    forall j | 0 <= j < |r|
      ensures first <= r[j].line < upTo && Found(lines, scope, r[j])
      ensures !useRegex ==> Fold(r[j].text, caseSensitive) == Fold(query, caseSensitive)
    {
      if j >= |prev| { assert r[j] == last[j - |prev|]; }
    }
  }

  lemma MatchesBetweenStep(lines: seq<Line>, first: nat, upTo: nat, query: string, useRegex: bool,
                           caseSensitive: bool, scope: Option<Selection>, exec: Exec)
    requires first < upTo <= |lines| && Searchable(query, exec)
    requires SoundRange(lines, scope, first, upTo - 1, query, useRegex, caseSensitive,
                        MatchesBetween(lines, first, upTo - 1, query, useRegex, caseSensitive, scope, exec))
    requires SoundRange(lines, scope, upTo - 1, upTo, query, useRegex, caseSensitive,
                        LineMatches(lines, upTo - 1, query, useRegex, caseSensitive, scope, exec))
    ensures SoundRange(lines, scope, first, upTo, query, useRegex, caseSensitive,
                       MatchesBetween(lines, first, upTo, query, useRegex, caseSensitive, scope, exec))
  {
    MatchesBetweenUnfold(lines, first, upTo, query, useRegex, caseSensitive, scope, exec);
    FoundConcat(lines, scope, first, upTo, query, useRegex, caseSensitive,
                MatchesBetween(lines, first, upTo - 1, query, useRegex, caseSensitive, scope, exec),
                LineMatches(lines, upTo - 1, query, useRegex, caseSensitive, scope, exec));
  }

  lemma {:induction false} MatchesBetweenSound(lines: seq<Line>, first: nat, upTo: nat, query: string, useRegex: bool,
                                               caseSensitive: bool, scope: Option<Selection>, exec: Exec)
    requires upTo <= |lines| && Searchable(query, exec)
    ensures SoundRange(lines, scope, first, upTo, query, useRegex, caseSensitive,
                       MatchesBetween(lines, first, upTo, query, useRegex, caseSensitive, scope, exec))
    decreases upTo
  {
    if first < upTo {
      MatchesBetweenSound(lines, first, upTo - 1, query, useRegex, caseSensitive, scope, exec);
      LineMatchesSound(lines, upTo - 1, query, useRegex, caseSensitive, scope, exec);
      MatchesBetweenStep(lines, first, upTo, query, useRegex, caseSensitive, scope, exec);
    }
  }

  /** Line `l` has a match around position `k`. */
  predicate CoversAt(ms: seq<Match>, l: nat, k: nat)
  {
    exists j :: 0 <= j < |ms| && ms[j].line == l && ms[j].start <= k < ms[j].end
  }

  /** The needle occurs at `k` of line `l`, inside that line's limits. */
  predicate LiteralOccurrence(lines: seq<Line>, l: nat, query: string, caseSensitive: bool,
                              scope: Option<Selection>, k: nat)
  {
    && l < |lines|
    && LimitStart(scope, l) <= k && k + |query| <= LimitEnd(scope, l, |lines[l].text|)
    && OccursAt(Fold(lines[l].text, caseSensitive), Fold(query, caseSensitive), k)
  }

  lemma CoversAtPrefix(prev: seq<Match>, last: seq<Match>, l: nat, k: nat)
    requires CoversAt(prev, l, k)
    ensures CoversAt(prev + last, l, k)
  {
    var j :| 0 <= j < |prev| && prev[j].line == l && prev[j].start <= k < prev[j].end;
    assert (prev + last)[j] == prev[j];
  }

  lemma CoversAtSuffix(prev: seq<Match>, last: seq<Match>, l: nat, k: nat)
    requires CoversAt(last, l, k)
    ensures CoversAt(prev + last, l, k)
  {
    var j :| 0 <= j < |last| && last[j].line == l && last[j].start <= k < last[j].end;
    assert (prev + last)[|prev| + j] == last[j];
  }

  /** Every occurrence inside the limits of line `l` is covered by a hit of
      that line. */
  lemma LineMatchesComplete(lines: seq<Line>, l: nat, query: string, caseSensitive: bool,
                            scope: Option<Selection>, exec: Exec, k: nat)
    requires Searchable(query, exec)
    requires LiteralOccurrence(lines, l, query, caseSensitive, scope, k)
    ensures CoversAt(LineMatches(lines, l, query, false, caseSensitive, scope, exec), l, k)
  {
    var text := lines[l].text;
    var haystack := Fold(text, caseSensitive);
    var needle := Fold(query, caseSensitive);
    var limitStart := LimitStart(scope, l);
    var r := LineMatches(lines, l, query, false, caseSensitive, scope, exec);
    assert Searched(lines, l, scope);
    LiteralFromComplete(text, haystack, needle, l, limitStart, LimitEnd(scope, l, |text|), k);
    LiteralLineSound(text, l, query, caseSensitive, limitStart, LimitEnd(scope, l, |text|));
    assert r == LiteralFrom(text, haystack, needle, l, IndexOf(haystack, needle, limitStart), LimitEnd(scope, l, |text|));
    var j :| 0 <= j < |r| && r[j].start <= k < r[j].end;
    assert r[j].line == l;
  }

  /** An occurrence on the last line of the range is covered. */
  lemma LastLineCovers(lines: seq<Line>, first: nat, l: nat, upTo: nat, query: string, caseSensitive: bool,
                       scope: Option<Selection>, exec: Exec, k: nat)
    requires first <= l && upTo == l + 1 && upTo <= |lines| && Searchable(query, exec)
    requires LiteralOccurrence(lines, l, query, caseSensitive, scope, k)
    ensures CoversAt(MatchesBetween(lines, first, upTo, query, false, caseSensitive, scope, exec), l, k)
  {
    LineMatchesComplete(lines, l, query, caseSensitive, scope, exec, k);
    MatchesBetweenUnfold(lines, first, l + 1, query, false, caseSensitive, scope, exec);
    CoversAtSuffix(MatchesBetween(lines, first, l, query, false, caseSensitive, scope, exec),
                   LineMatches(lines, l, query, false, caseSensitive, scope, exec), l, k);
  }

  lemma {:induction false} MatchesBetweenComplete(lines: seq<Line>, first: nat, upTo: nat, query: string,
                                                  caseSensitive: bool, scope: Option<Selection>, exec: Exec,
                                                  l: nat, k: nat)
    requires upTo <= |lines| && Searchable(query, exec)
    requires first <= l < upTo && LiteralOccurrence(lines, l, query, caseSensitive, scope, k)
    ensures CoversAt(MatchesBetween(lines, first, upTo, query, false, caseSensitive, scope, exec), l, k)
    decreases upTo
  {
    if l < upTo - 1 {
      MatchesBetweenUnfold(lines, first, upTo, query, false, caseSensitive, scope, exec);
      MatchesBetweenComplete(lines, first, upTo - 1, query, caseSensitive, scope, exec, l, k);
      CoversAtPrefix(MatchesBetween(lines, first, upTo - 1, query, false, caseSensitive, scope, exec),
                     LineMatches(lines, upTo - 1, query, false, caseSensitive, scope, exec), l, k);
    } else {
      LastLineCovers(lines, first, l, upTo, query, caseSensitive, scope, exec, k);
    }
  }

  // ----- the search as a whole -----

  /** A search reports only matches inside the scope, in document order and
      disjoint; a literal match is the query up to case. */
  lemma SearchSound(lines: seq<Line>, query: string, useRegex: bool, caseSensitive: bool,
                    scope: Option<Selection>, exec: Exec, compileError: Option<string>,
                    deadline: Option<nat>, duration: string)
    requires ExecSound(exec)
    ensures var r := SearchLines(lines, query, useRegex, caseSensitive, scope, exec, compileError, deadline, duration);
            && AllFound(lines, scope, FirstLine(scope), StopLine(scope, |lines|), r.matches)
            && Ordered(r.matches)
            && (!useRegex ==> AllFold(r.matches, query, caseSensitive))
  {
    if query != [] {
      MatchesBetweenSound(lines, FirstLine(scope), StopLine(scope, |lines|), query, useRegex, caseSensitive, scope, exec);
    }
  }

  /** A literal search that does not time out misses no occurrence: every
      occurrence of the query inside the scope is a match or overlaps an
      earlier one. */
  lemma LiteralSearchComplete(lines: seq<Line>, query: string, caseSensitive: bool,
                              scope: Option<Selection>, exec: Exec, compileError: Option<string>,
                              deadline: Option<nat>, duration: string, l: nat, k: nat)
    requires Searchable(query, exec)
    requires SearchLines(lines, query, false, caseSensitive, scope, exec, compileError, deadline, duration).regexError.None?
    requires FirstLine(scope) <= l < StopLine(scope, |lines|)
    requires LiteralOccurrence(lines, l, query, caseSensitive, scope, k)
    ensures CoversAt(SearchLines(lines, query, false, caseSensitive, scope, exec, compileError, deadline, duration).matches, l, k)
  {
    MatchesBetweenComplete(lines, FirstLine(scope), StopLine(scope, |lines|), query, caseSensitive, scope, exec, l, k);
  }

  // ----- the search loop -----

  /** `n` clock checks stay within the deadline. */
  predicate InTime(deadline: Option<nat>, n: nat)
  {
    deadline.None? || n <= deadline.value
  }

  /** A scan that started after `checks` checks and would find `all`: it
      either found all of them in time, having checked once per hit, or the
      checks that takes exceed the deadline. */
  predicate Scanned(all: seq<Match>, checks: nat, deadline: Option<nat>, found: seq<Match>, after: nat, timedOut: bool)
  {
    if timedOut then !InTime(deadline, checks + |all|)
    else found == all && after == checks + |all| && InTime(deadline, after)
  }

  /** `checkTimeout`: the clock is read once more; the search has timed out
      when this reading is past the deadline. */
  method CheckTimeout(deadline: Option<nat>, checks: nat) returns (timedOut: bool, after: nat)
    ensures after == checks + 1
    ensures timedOut <==> !InTime(deadline, after)
  {
    after := checks + 1;
    timedOut := deadline.Some? && deadline.value < after;
  }

  /** One hit of the literal scan: the hit at `index`, then the scan from
      the first occurrence after it. */
  lemma LiteralFromStep(text: string, haystack: string, needle: string, l: nat, index: int, limitEnd: nat)
    requires |needle| > 0 && |haystack| == |text|
    requires OccursAt(haystack, needle, index) && index + |needle| <= limitEnd
    ensures LiteralFrom(text, haystack, needle, l, index, limitEnd)
            == [Match(l, index, index + |needle|, text[index..index + |needle|], None, None)]
               + LiteralFrom(text, haystack, needle, l, IndexOf(haystack, needle, index + |needle|), limitEnd)
  {
  }

  /** Moving the head of the remaining hits onto the found ones keeps
      their concatenation, and what was found stays shorter than the whole. */
  lemma MovePastHead<T>(found: seq<T>, hit: T, rest: seq<T>, all: seq<T>)
    requires found + ([hit] + rest) == all
    ensures (found + [hit]) + rest == all && |found + [hit]| <= |all|
  {
    AppendAssoc(found, [hit], rest);
  }

  /** One turn of the literal hit loop: the hit at `index` joins the found
      ones, the scan moves to the next occurrence, and the clock is read. */
  method TakeLiteralHit(text: string, haystack: string, needle: string, l: nat, limitEnd: nat, deadline: Option<nat>,
                    ghost all: seq<Match>, found: seq<Match>, index: int, after: nat)
    returns (found': seq<Match>, index': int, after': nat, timedOut: bool)
    requires |needle| > 0 && |haystack| == |text|
    requires OccursAt(haystack, needle, index) && index + |needle| <= limitEnd
    requires found + LiteralFrom(text, haystack, needle, l, index, limitEnd) == all
    ensures index' == -1 || (index < index' && OccursAt(haystack, needle, index'))
    ensures found' + LiteralFrom(text, haystack, needle, l, index', limitEnd) == all
    ensures |found'| == |found| + 1 && |found'| <= |all|
    ensures after' == after + 1 && (timedOut <==> !InTime(deadline, after'))
  {
    var end := index + |needle|;
    var hit := Match(l, index, end, text[index..end], None, None);
    index' := IndexOf(haystack, needle, end);
    LiteralFromStep(text, haystack, needle, l, index, limitEnd);
    MovePastHead(found, hit, LiteralFrom(text, haystack, needle, l, index', limitEnd), all);
    found' := found + [hit];
    timedOut, after' := CheckTimeout(deadline, after);
  }

  /** The literal hit loop of one line. */
  method LiteralScan(text: string, haystack: string, needle: string, l: nat, limitStart: nat, limitEnd: nat,
                     deadline: Option<nat>, checks: nat)
    returns (found: seq<Match>, after: nat, timedOut: bool)
    requires |needle| > 0 && |haystack| == |text|
    requires InTime(deadline, checks)
    ensures Scanned(LiteralFrom(text, haystack, needle, l, IndexOf(haystack, needle, limitStart), limitEnd),
                    checks, deadline, found, after, timedOut)
  {
    ghost var all := LiteralFrom(text, haystack, needle, l, IndexOf(haystack, needle, limitStart), limitEnd);
    found, after, timedOut := [], checks, false;
    var index := IndexOf(haystack, needle, limitStart);
    while !timedOut && index != -1 && index + |needle| <= limitEnd
      invariant index == -1 || OccursAt(haystack, needle, index)
      invariant found + LiteralFrom(text, haystack, needle, l, index, limitEnd) == all
      invariant after == checks + |found| && |found| <= |all|
      invariant timedOut <==> !InTime(deadline, after)
      decreases if index == -1 then 0 else |haystack| + 1 - index
    {
      found, index, after, timedOut := TakeLiteralHit(text, haystack, needle, l, limitEnd, deadline, all, found, index, after);
    }
    if !timedOut {
      assert LiteralFrom(text, haystack, needle, l, index, limitEnd) == [];
    }
  }

  /** One call of `exec` and what the loop does with its result: the hit
      it keeps, if any, and where the next call starts; `done` when the loop
      ends. */
  method NextRegexHit(exec: Exec, text: string, l: nat, from: nat, limitStart: nat, limitEnd: nat)
    returns (hit: Option<Match>, next: nat, done: bool)
    requires ExecSound(exec) && from <= |text|
    ensures done ==> RegexFrom(exec, text, l, from, limitStart, limitEnd) == []
    ensures !done ==> from < next <= |text|
    ensures !done && hit.None? ==> RegexFrom(exec, text, l, from, limitStart, limitEnd)
                                   == RegexFrom(exec, text, l, next, limitStart, limitEnd)
    ensures !done && hit.Some? ==> RegexFrom(exec, text, l, from, limitStart, limitEnd)
                                   == [hit.value] + RegexFrom(exec, text, l, next, limitStart, limitEnd)
  {
    hit, next, done := None, from, true;
    var m := exec(text, from);
    if m.None? {
      return;
    }
    var r := m.value;
    var end := r.index + r.length;
    if r.length == 0 {
      if r.index + 1 > |text| {
        return;
      }
      next, done := r.index + 1, false;
    } else if r.index < limitStart || end > limitEnd {
      next, done := end, false;
    } else {
      hit := Some(Match(l, r.index, end, text[r.index..end], if |r.groups| > 0 then Some(r.groups) else None, r.named));
      next, done := end, false;
    }
  }

  /** The `exec` loop of one line. */
  method RegexScan(exec: Exec, text: string, l: nat, limitStart: nat, limitEnd: nat,
                   deadline: Option<nat>, checks: nat)
    returns (found: seq<Match>, after: nat, timedOut: bool)
    requires ExecSound(exec)
    requires InTime(deadline, checks)
    ensures Scanned(RegexFrom(exec, text, l, 0, limitStart, limitEnd), checks, deadline, found, after, timedOut)
  {
    ghost var all := RegexFrom(exec, text, l, 0, limitStart, limitEnd);
    found, after, timedOut := [], checks, false;
    var lastIndex := 0;
    while true
      invariant lastIndex <= |text|
      invariant found + RegexFrom(exec, text, l, lastIndex, limitStart, limitEnd) == all
      invariant after == checks + |found| && InTime(deadline, after)
      decreases |text| + 1 - lastIndex
    {
      var hit, next, done := NextRegexHit(exec, text, l, lastIndex, limitStart, limitEnd);
      if done {
        assert found == all;
        return;
      }
      ghost var rest := RegexFrom(exec, text, l, next, limitStart, limitEnd);
      lastIndex := next;
      if hit.Some? {
        AppendAssoc(found, [hit.value], rest);
        found := found + [hit.value];
        timedOut, after := CheckTimeout(deadline, after);
        if timedOut {
          assert |found| <= |all|;
          return;
        }
      }
    }
  }

  /** One pass of the line loop: the hits of line `l` and the checks made. */
  method SearchLine(lines: seq<Line>, l: nat, query: string, useRegex: bool, caseSensitive: bool,
                    scope: Option<Selection>, exec: Exec, deadline: Option<nat>, checks: nat)
    returns (found: seq<Match>, after: nat, timedOut: bool)
    requires l < |lines| && Searchable(query, exec)
    requires InTime(deadline, checks)
    ensures var lineChecks := LineChecks(lines, l, query, useRegex, caseSensitive, scope, exec);
            if timedOut then !InTime(deadline, checks + lineChecks)
            else && found == LineMatches(lines, l, query, useRegex, caseSensitive, scope, exec)
                 && after == checks + lineChecks && InTime(deadline, after)
  {
    var text := lines[l].text;
    var limitStart := LimitStart(scope, l);
    var limitEnd := LimitEnd(scope, l, |text|);
    if limitStart >= limitEnd {
      return [], checks, false;
    }
    if useRegex {
      found, after, timedOut := RegexScan(exec, text, l, limitStart, limitEnd, deadline, checks);
    } else {
      var haystack := Fold(text, caseSensitive);
      var needle := Fold(query, caseSensitive);
      found, after, timedOut := LiteralScan(text, haystack, needle, l, limitStart, limitEnd, deadline, checks);
    }
    if !timedOut {
      timedOut, after := CheckTimeout(deadline, after);
    }
  }

  /** A table holding the hits of every line, as `LineMatches` gives them.
      The loop below reasons over the table, so that it never needs the
      hits of a line it is not searching. */
  ghost predicate HitTable(lines: seq<Line>, query: string, useRegex: bool, caseSensitive: bool,
                           scope: Option<Selection>, exec: Exec, hits: seq<seq<Match>>)
    requires Searchable(query, exec)
  {
    && |hits| == |lines|
    && forall l: nat {:trigger LineMatches(lines, l, query, useRegex, caseSensitive, scope, exec)} :: l < |lines| ==>
         hits[l] == LineMatches(lines, l, query, useRegex, caseSensitive, scope, exec)
  }

  lemma HitTableOf(lines: seq<Line>, query: string, useRegex: bool, caseSensitive: bool,
                   scope: Option<Selection>, exec: Exec) returns (hits: seq<seq<Match>>)
    requires Searchable(query, exec)
    ensures HitTable(lines, query, useRegex, caseSensitive, scope, exec, hits)
  {
    hits := seq(|lines|, l requires 0 <= l < |lines| => LineMatches(lines, l, query, useRegex, caseSensitive, scope, exec));
  }

  /** The hits of table rows `first` up to `upTo`, in order. */
  function Flat(hits: seq<seq<Match>>, first: nat, upTo: nat): seq<Match>
    requires upTo <= |hits|
    decreases upTo
  {
    if upTo <= first then [] else Flat(hits, first, upTo - 1) + hits[upTo - 1]
  }

  /** The timeout checks of table rows `first` up to `upTo`. */
  function Tally(lines: seq<Line>, scope: Option<Selection>, hits: seq<seq<Match>>, first: nat, upTo: nat): nat
    requires upTo <= |hits| == |lines|
    decreases upTo
  {
    if upTo <= first then 0
    else Tally(lines, scope, hits, first, upTo - 1) + (if Searched(lines, upTo - 1, scope) then |hits[upTo - 1]| + 1 else 0)
  }

  lemma {:induction false} TallyMonotone(lines: seq<Line>, scope: Option<Selection>, hits: seq<seq<Match>>,
                                         first: nat, a: nat, b: nat)
    requires a <= b <= |hits| == |lines|
    ensures Tally(lines, scope, hits, first, a) <= Tally(lines, scope, hits, first, b)
    decreases b
  {
    if a < b {
      TallyMonotone(lines, scope, hits, first, a, b - 1);
    }
  }

  /** The table gives the same hits as the search functions. */
  lemma {:induction false} FlatAgrees(lines: seq<Line>, first: nat, upTo: nat, query: string, useRegex: bool,
                                      caseSensitive: bool, scope: Option<Selection>, exec: Exec, hits: seq<seq<Match>>)
    requires upTo <= |lines| && Searchable(query, exec)
    requires HitTable(lines, query, useRegex, caseSensitive, scope, exec, hits)
    ensures Flat(hits, first, upTo) == MatchesBetween(lines, first, upTo, query, useRegex, caseSensitive, scope, exec)
    decreases upTo
  {
    if first < upTo {
      FlatAgrees(lines, first, upTo - 1, query, useRegex, caseSensitive, scope, exec, hits);
    }
  }

  /** The table gives the same timeout checks as the search functions. */
  lemma {:induction false} TallyAgrees(lines: seq<Line>, first: nat, upTo: nat, query: string, useRegex: bool,
                                       caseSensitive: bool, scope: Option<Selection>, exec: Exec, hits: seq<seq<Match>>)
    requires upTo <= |lines| && Searchable(query, exec)
    requires HitTable(lines, query, useRegex, caseSensitive, scope, exec, hits)
    ensures Tally(lines, scope, hits, first, upTo) == ChecksBetween(lines, first, upTo, query, useRegex, caseSensitive, scope, exec)
    decreases upTo
  {
    if first < upTo {
      TallyAgrees(lines, first, upTo - 1, query, useRegex, caseSensitive, scope, exec, hits);
    }
  }

  /** The line loop of `computeMatches` over lines `first` up to `stop`:
      either every line was searched in time, or the checks the search needs
      exceed the deadline. */
  method SearchLinesLoop(lines: seq<Line>, first: nat, stop: nat, query: string, useRegex: bool, caseSensitive: bool,
                         scope: Option<Selection>, exec: Exec, deadline: Option<nat>)
    returns (matches: seq<Match>, timedOut: bool)
    requires first <= stop <= |lines| && Searchable(query, exec)
    ensures var checks := ChecksBetween(lines, first, stop, query, useRegex, caseSensitive, scope, exec);
            if timedOut then !InTime(deadline, checks)
            else matches == MatchesBetween(lines, first, stop, query, useRegex, caseSensitive, scope, exec) && InTime(deadline, checks)
  {
    ghost var hits := HitTableOf(lines, query, useRegex, caseSensitive, scope, exec);
    matches, timedOut := [], false;
    var checks := 0;
    var lineIndex := first;
    while lineIndex < stop
      invariant first <= lineIndex <= stop
      invariant matches == Flat(hits, first, lineIndex)
      invariant checks == Tally(lines, scope, hits, first, lineIndex)
      invariant InTime(deadline, checks)
    {
      var lineTimedOut;
      matches, checks, lineTimedOut := SearchStep(lines, first, lineIndex, stop, query, useRegex, caseSensitive, scope, exec,
                                                  deadline, hits, matches, checks);
      if lineTimedOut {
        TallyAgrees(lines, first, stop, query, useRegex, caseSensitive, scope, exec, hits);
        return [], true;
      }
      lineIndex := lineIndex + 1;
    }
    FlatAgrees(lines, first, stop, query, useRegex, caseSensitive, scope, exec, hits);
    TallyAgrees(lines, first, stop, query, useRegex, caseSensitive, scope, exec, hits);
  }

  /** One turn of the line loop: line `l` is searched and its hits and
      checks are added, or it runs out of time and so does the search. */
  method SearchStep(lines: seq<Line>, first: nat, l: nat, stop: nat, query: string, useRegex: bool, caseSensitive: bool,
                    scope: Option<Selection>, exec: Exec, deadline: Option<nat>, ghost hits: seq<seq<Match>>,
                    matches: seq<Match>, checks: nat)
    returns (matches': seq<Match>, checks': nat, timedOut: bool)
    requires first <= l < stop <= |lines| && Searchable(query, exec)
    requires HitTable(lines, query, useRegex, caseSensitive, scope, exec, hits)
    requires matches == Flat(hits, first, l) && checks == Tally(lines, scope, hits, first, l)
    requires InTime(deadline, checks)
    ensures timedOut ==> !InTime(deadline, Tally(lines, scope, hits, first, stop))
    ensures !timedOut ==> matches' == Flat(hits, first, l + 1) && checks' == Tally(lines, scope, hits, first, l + 1)
    ensures !timedOut ==> InTime(deadline, checks')
  {
    var found, after, lineTimedOut := SearchLine(lines, l, query, useRegex, caseSensitive, scope, exec, deadline, checks);
    assert hits[l] == LineMatches(lines, l, query, useRegex, caseSensitive, scope, exec);
    assert Tally(lines, scope, hits, first, l + 1) == checks + LineChecks(lines, l, query, useRegex, caseSensitive, scope, exec);
    if lineTimedOut {
      TallyMonotone(lines, scope, hits, first, l + 1, stop);
      return matches, checks, true;
    }
    return matches + found, after, false;
  }

  /** `computeMatches`: the empty query finds nothing, a pattern that does
      not compile reports its error, and otherwise the lines of the scope are
      searched until the deadline. */
  method ComputeMatches(lines: seq<Line>, query: string, useRegex: bool, caseSensitive: bool,
                        scope: Option<Selection>, exec: Exec, compileError: Option<string>,
                        deadline: Option<nat>, duration: string)
    returns (matches: seq<Match>, regexError: Option<string>)
    requires ExecSound(exec)
    ensures SearchResult(matches, regexError)
            == SearchLines(lines, query, useRegex, caseSensitive, scope, exec, compileError, deadline, duration)
  {
    if query == [] {
      return [], None;
    }
    if useRegex && compileError.Some? {
      return [], compileError;
    }
    var startLine := FirstLine(scope);
    var stop := StopLine(scope, |lines|);
    var timedOut := false;
    matches := [];
    if startLine < stop {
      matches, timedOut := SearchLinesLoop(lines, startLine, stop, query, useRegex, caseSensitive, scope, exec, deadline);
    }
    if timedOut {
      return [], Some(TimeoutMessage(duration));
    }
    return matches, None;
  }
}
