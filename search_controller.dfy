/**
 * The search panel's controller (`SearchController` in search-controller.js)
 * over the editor: the match list and its per-line index, the active match
 * and how it moves, and the two replace commands. The panel's inputs
 * (query, replacement, the three check boxes) are fields; the regular
 * expression engine and the clock are passed in as in the Search module.
 */
module SearchPanel {
  import opened JsString
  import opened Outline
  import opened ReplacementPattern
  import opened Search
  import Editor

  // ----- groupMatchesByLine -----

  /** One entry of the per-line index: a match's range and its position in
      the match list. */
  datatype Entry = Entry(start: nat, end: nat, index: nat)

  /** The entries of the first `n` matches that lie on line `l`, in order. */
  function EntriesOn(ms: seq<Match>, l: nat, n: nat): seq<Entry>
    requires n <= |ms|
  {
    if n == 0 then []
    else EntriesOn(ms, l, n - 1) + (if ms[n - 1].line == l then [Entry(ms[n - 1].start, ms[n - 1].end, n - 1)] else [])
  }

  /** `byLine` indexes the first `n` matches: a line is a key exactly when
      one of them lies on it, and maps to their entries in order. */
  ghost predicate GroupedBy(byLine: map<nat, seq<Entry>>, ms: seq<Match>, n: nat)
    requires n <= |ms|
  {
    forall l :: (l in byLine <==> EntriesOn(ms, l, n) != []) && (l in byLine ==> byLine[l] == EntriesOn(ms, l, n))
  }

  lemma EntriesStep(ms: seq<Match>, l: nat, n: nat, upTo: nat)
    requires upTo == n + 1 && upTo <= |ms|
    ensures EntriesOn(ms, l, upTo)
            == EntriesOn(ms, l, n) + (if ms[n].line == l then [Entry(ms[n].start, ms[n].end, n)] else [])
  {
  }

  /** `groupMatchesByLine` */
  method GroupMatchesByLine(matches: seq<Match>) returns (byLine: map<nat, seq<Entry>>)
    ensures GroupedBy(byLine, matches, |matches|)
  {
    byLine := map[];
    var index := 0;
    while index < |matches|
      invariant index <= |matches|
      invariant GroupedBy(byLine, matches, index)
    {
      var m := matches[index];
      if m.line !in byLine {
        byLine := byLine[m.line := []];
      }
      byLine := byLine[m.line := byLine[m.line] + [Entry(m.start, m.end, index)]];
      forall l
        ensures EntriesOn(matches, l, index + 1)
                == EntriesOn(matches, l, index) + (if m.line == l then [Entry(m.start, m.end, index)] else [])
      {
        EntriesStep(matches, l, index, index + 1);
      }
      index := index + 1;
    }
  }

  /** Every entry of line `l` names a match on line `l` with the same range. */
  lemma {:induction false} EntrySound(ms: seq<Match>, l: nat, n: nat, j: nat)
    requires n <= |ms| && j < |EntriesOn(ms, l, n)|
    ensures var e := EntriesOn(ms, l, n)[j];
            e.index < n && ms[e.index].line == l && ms[e.index].start == e.start && ms[e.index].end == e.end
    decreases n
  {
    var prev := EntriesOn(ms, l, n - 1);
    if j < |prev| {
      EntrySound(ms, l, n - 1, j);
    }
  }

  /** The entries of a line keep the order of the match list. */
  lemma {:induction false} EntriesIncreasing(ms: seq<Match>, l: nat, n: nat, i: nat, j: nat)
    requires n <= |ms| && i < j < |EntriesOn(ms, l, n)|
    ensures EntriesOn(ms, l, n)[i].index < EntriesOn(ms, l, n)[j].index
    decreases n
  {
    var prev := EntriesOn(ms, l, n - 1);
    if j < |prev| {
      EntriesIncreasing(ms, l, n - 1, i, j);
    } else {
      EntrySound(ms, l, n - 1, i);
    }
  }

  /** Every match on line `l` has an entry. */
  lemma {:induction false} EntryComplete(ms: seq<Match>, l: nat, n: nat, k: nat)
    requires k < n <= |ms| && ms[k].line == l
    ensures exists j :: 0 <= j < |EntriesOn(ms, l, n)| && EntriesOn(ms, l, n)[j].index == k
    decreases n
  {
    var prev := EntriesOn(ms, l, n - 1);
    if k < n - 1 {
      EntryComplete(ms, l, n - 1, k);
      var j :| 0 <= j < |prev| && prev[j].index == k;
      assert EntriesOn(ms, l, n)[j] == prev[j];
    } else {
      assert EntriesOn(ms, l, n)[|prev|].index == k;
    }
  }

  // ----- step -----

  /** JavaScript's `%` on integers: the remainder has the sign of the
      dividend. */
  function JsRem(x: int, n: int): (r: int)
    requires n > 0
    ensures x >= 0 ==> r == x % n
  {
    if x >= 0 then x % n else -((-x) % n)
  }

  /** A multiple of `n` leaves no remainder. */
  lemma MultipleMod(n: int, k: int)
    requires n > 0
    ensures (n * k) % n == 0
  {
    var m := n * k;
    var d := k - m / n;
    assert n * d == n * k - n * (m / n);
    assert n * d == m % n;
    MultipleBounds(n, d);
  }

  /** A non-zero multiple of `n` is at least `n` away from 0. */
  lemma MultipleBounds(n: int, d: int)
    requires n > 0
    ensures d >= 1 ==> n * d >= n
    ensures d <= -1 ==> n * d <= -n
  {
    assert n * d == n * (d - 1) + n;
    assert n * d == n * (d + 1) - n;
  }

  /** JavaScript's `%` leaves a remainder of the dividend's sign, smaller
      than the divisor in magnitude, and congruent to the dividend. */
  lemma JsRemSign(x: int, n: int)
    requires n > 0
    ensures -n < JsRem(x, n) < n
    ensures x >= 0 ==> JsRem(x, n) >= 0
    ensures x < 0 ==> JsRem(x, n) <= 0
    ensures (x - JsRem(x, n)) % n == 0
  {
    if x < 0 {
      var q := (-x) / n;
      assert -x == n * q + (-x) % n;
      assert x - JsRem(x, n) == n * -q;
      MultipleMod(n, -q);
    } else {
      MultipleMod(n, x / n);
      assert x - JsRem(x, n) == n * (x / n);
    }
  }

  /** The index `step(direction)` moves to among `length` matches. */
  function StepIndex(activeIndex: int, direction: int, length: nat): int
    requires length > 0
  {
    if activeIndex == -1 then (if direction > 0 then 0 else length - 1)
    else JsRem(activeIndex + direction + length, length)
  }

  /** One step forward or back from no match or from a match lands on a
      match: from none on the first or the last, from a match on its
      neighbour, wrapping around. */
  lemma StepIndexMoves(activeIndex: int, direction: int, length: nat)
    requires length > 0 && -1 <= activeIndex < length && (direction == 1 || direction == -1)
    ensures 0 <= StepIndex(activeIndex, direction, length) < length
    ensures activeIndex == -1 ==> StepIndex(activeIndex, direction, length) == (if direction == 1 then 0 else length - 1)
    ensures activeIndex >= 0 && direction == 1 ==>
              StepIndex(activeIndex, direction, length) == (if activeIndex == length - 1 then 0 else activeIndex + 1)
    ensures activeIndex >= 0 && direction == -1 ==>
              StepIndex(activeIndex, direction, length) == (if activeIndex == 0 then length - 1 else activeIndex - 1)
  {
    if activeIndex >= 0 {
      var x := activeIndex + direction + length;
      if direction == 1 {
        if activeIndex == length - 1 {
          assert x == length + length;
        } else {
          assert x == length + (activeIndex + 1);
        }
      } else {
        if activeIndex == 0 {
          assert x == length - 1;
        } else {
          assert x == length + (activeIndex - 1);
        }
      }
    }
  }

  /** Stepping forward and then back returns to the same match. */
  lemma StepForwardBack(activeIndex: int, length: nat)
    requires 0 <= activeIndex < length
    ensures StepIndex(StepIndex(activeIndex, 1, length), -1, length) == activeIndex
  {
    StepIndexMoves(activeIndex, 1, length);
    StepIndexMoves(StepIndex(activeIndex, 1, length), -1, length);
  }

  // ----- the active match after a search -----

  /** Two matches cover the same range of the same line. */
  predicate SameRange(a: Match, b: Match)
  {
    a.line == b.line && a.start == b.start && a.end == b.end
  }

  /** `findIndex` of a match with the range of `target`, from `from` on. */
  function FindSameRange(ms: seq<Match>, target: Match, from: nat): (r: int)
    ensures r == -1 || (from <= r < |ms| && SameRange(ms[r], target))
    decreases |ms| - from
  {
    if from >= |ms| then -1
    else if SameRange(ms[from], target) then from
    else FindSameRange(ms, target, from + 1)
  }

  /** `findIndex` finds the first such match, and -1 only when there is none. */
  lemma {:induction false} FindSameRangeFirst(ms: seq<Match>, target: Match, from: nat, k: nat)
    requires from <= k < |ms| && SameRange(ms[k], target)
    ensures 0 <= FindSameRange(ms, target, from) <= k
    decreases k - from
  {
    if !SameRange(ms[from], target) {
      FindSameRangeFirst(ms, target, from + 1, k);
    }
  }

  /** The active index `updateResults` chooses: none without matches, else
      the preferred index when it is valid, else the match with the range of
      the previous active match, else the first. */
  function NextActiveIndex(ms: seq<Match>, preferredIndex: Option<int>, previous: Option<Match>): (r: int)
    ensures r == -1 <==> ms == []
    ensures r != -1 ==> 0 <= r < |ms|
  {
    if ms == [] then -1
    else if preferredIndex.Some? && 0 <= preferredIndex.value < |ms| then preferredIndex.value
    else
      var found := if previous.Some? then FindSameRange(ms, previous.value, 0) else -1;
      if found == -1 then 0 else found
  }

  /** A valid preferred index wins. */
  lemma NextActivePreferred(ms: seq<Match>, preferredIndex: int, previous: Option<Match>)
    requires 0 <= preferredIndex < |ms|
    ensures NextActiveIndex(ms, Some(preferredIndex), previous) == preferredIndex
  {
  }

  /** Without a valid preferred index, the first match with the previous
      active match's range becomes active again; without one, the first
      match does. */
  lemma NextActiveFollowsPrevious(ms: seq<Match>, preferredIndex: Option<int>, previous: Match)
    requires ms != [] && (preferredIndex.None? || preferredIndex.value < 0 || preferredIndex.value >= |ms|)
    ensures var r := NextActiveIndex(ms, preferredIndex, Some(previous));
            && (SameRange(ms[r], previous) || (r == 0 && forall k :: 0 <= k < |ms| ==> !SameRange(ms[k], previous)))
            && forall k :: 0 <= k < r ==> !SameRange(ms[k], previous)
  {
    var r := NextActiveIndex(ms, preferredIndex, Some(previous));
    forall k | 0 <= k < |ms| && SameRange(ms[k], previous)
      ensures r <= k && SameRange(ms[r], previous)
    {
      FindSameRangeFirst(ms, previous, 0, k);
    }
  }

  // ----- captureSelectionScope -----

  /** `captureSelectionScope`: the editor's selection in document order when
      it is not empty; otherwise the scope already in use. */
  function CaptureSelectionScope(selection: Option<Selection>, current: Option<Selection>): (r: Option<Selection>)
    ensures (selection.None? || selection.value.start == selection.value.end) ==> r == current
    ensures r != current ==> && selection.Some? && r.Some? && Before(r.value.start, r.value.end)
                             && {r.value.start, r.value.end} == {selection.value.start, selection.value.end}
  {
    match selection
    case None => current
    case Some(s) =>
      var n := NormalizeSelection(s);
      if ComparePoints(n.start, n.end) == 0 then current else Some(Selection(n.start, n.end))
  }

  // ----- replaceAll's text -----

  /** The text `applyReplacementPattern` gives a match. */
  function Replacement(m: Match, pattern: string, fullText: string, useRegex: bool): string
  {
    if useRegex then Expand(pattern, m, fullText) else pattern
  }

  /** The replacement of each match, in order. */
  function Replacements(ms: seq<Match>, pattern: string, fullText: string, useRegex: bool): (r: seq<string>)
    ensures |r| == |ms|
    ensures forall i :: 0 <= i < |ms| ==> r[i] == Replacement(ms[i], pattern, fullText, useRegex)
  {
    seq(|ms|, i requires 0 <= i < |ms| => Replacement(ms[i], pattern, fullText, useRegex))
  }

  /** The line text `replaceAll` builds from match `k` and text position
      `cursor` on, given each match's replacement: the original text up to
      each match, the match's replacement, and the rest of the line. */
  function Rebuilt(text: string, ms: seq<Match>, reps: seq<string>, k: nat, cursor: nat): string
    requires |reps| == |ms|
    decreases |ms| - k
  {
    if k >= |ms| then Slice(text, cursor, |text|)
    else Slice(text, cursor, ms[k].start) + reps[k] + Rebuilt(text, ms, reps, k + 1, ms[k].end)
  }

  /** The matches from `k` on lie in `text` after `cursor`, in order and
      apart. */
  predicate InOrderFrom(text: string, ms: seq<Match>, k: nat, cursor: nat)
    decreases |ms| - k
  {
    if k >= |ms| then cursor <= |text|
    else cursor <= ms[k].start <= ms[k].end <= |text| && InOrderFrom(text, ms, k + 1, ms[k].end)
  }

  /** Every match's replacement is the text it covers. */
  predicate CoveredText(text: string, ms: seq<Match>, reps: seq<string>)
    requires |reps| == |ms|
  {
    forall i :: 0 <= i < |ms| ==> ms[i].start <= ms[i].end <= |text| && reps[i] == text[ms[i].start..ms[i].end]
  }

  /** The text between and around the matches is kept: replacing every
      match by the text it covers rebuilds the line. */
  lemma {:induction false} RebuiltKeepsGaps(text: string, ms: seq<Match>, reps: seq<string>, k: nat, cursor: nat)
    requires |reps| == |ms| && InOrderFrom(text, ms, k, cursor) && CoveredText(text, ms, reps)
    ensures Rebuilt(text, ms, reps, k, cursor) == text[cursor..]
    decreases |ms| - k
  {
    if k < |ms| {
      var m := ms[k];
      RebuiltKeepsGaps(text, ms, reps, k + 1, m.end);
      assert reps[k] == text[m.start..m.end];
      assert text[cursor..] == text[cursor..m.start] + text[m.start..m.end] + text[m.end..];
    }
  }

  /** Before the first match the line is unchanged, and the first match's
      replacement follows. */
  lemma RebuiltPrefix(text: string, ms: seq<Match>, reps: seq<string>)
    requires |reps| == |ms| && ms != [] && ms[0].start <= |text|
    ensures text[..ms[0].start] + reps[0] <= Rebuilt(text, ms, reps, 0, 0)
  {
    assert Slice(text, 0, ms[0].start) == text[..ms[0].start];
  }

  lemma RebuiltStep(text: string, ms: seq<Match>, reps: seq<string>, k: nat, cursor: nat)
    requires |reps| == |ms| && k < |ms|
    ensures Rebuilt(text, ms, reps, k, cursor)
            == Slice(text, cursor, ms[k].start) + reps[k] + Rebuilt(text, ms, reps, k + 1, ms[k].end)
  {
  }

  lemma Regroup(a: string, b: string, c: string, d: string, total: string)
    requires a + (b + c + d) == total
    ensures a + b + c + d == total
  {
    assert a + (b + c + d) == a + b + c + d;
  }

  /** `replaceAll`'s per-line loop. */
  method RebuildLine(text: string, sorted: seq<Match>, pattern: string, useRegex: bool) returns (result: string)
    ensures result == Rebuilt(text, sorted, Replacements(sorted, pattern, text, useRegex), 0, 0)
  {
    ghost var reps := Replacements(sorted, pattern, text, useRegex);
    ghost var total := Rebuilt(text, sorted, reps, 0, 0);
    var cursor: nat := 0;
    result := "";
    var k := 0;
    while k < |sorted|
      invariant k <= |sorted|
      invariant result + Rebuilt(text, sorted, reps, k, cursor) == total
    {
      var m := sorted[k];
      var gap := Slice(text, cursor, m.start);
      var replacement := ApplyReplacementPattern(m, pattern, text, useRegex);
      RebuiltStep(text, sorted, reps, k, cursor);
      Regroup(result, gap, replacement, Rebuilt(text, sorted, reps, k + 1, m.end), total);
      result := result + gap + replacement;
      cursor := m.end;
      k := k + 1;
    }
    result := result + Slice(text, cursor, |text|);
  }

  // ----- replaceAll's order within a line -----

  /** Insertion into a list sorted by start: before the first element that
      does not start earlier, so that equal starts keep their order. */
  function InsertByStart(m: Match, sorted: seq<Match>): (r: seq<Match>)
    ensures multiset(r) == multiset(sorted) + multiset{m}
    decreases |sorted|
  {
    if sorted == [] || m.start <= sorted[0].start then [m] + sorted
    else
      assert sorted == [sorted[0]] + sorted[1..];
      [sorted[0]] + InsertByStart(m, sorted[1..])
  }

  /** `[...lineMatches].sort((a, b) => a.start - b.start)`: a stable sort by
      start. */
  function SortByStart(ms: seq<Match>): (r: seq<Match>)
    ensures multiset(r) == multiset(ms)
    decreases |ms|
  {
    if ms == [] then []
    else
      assert ms == [ms[0]] + ms[1..];
      InsertByStart(ms[0], SortByStart(ms[1..]))
  }

  predicate StartsAscending(ms: seq<Match>)
  {
    forall i, j :: 0 <= i < j < |ms| ==> ms[i].start <= ms[j].start
  }

  lemma {:induction false} InsertKeepsAscending(m: Match, sorted: seq<Match>)
    requires StartsAscending(sorted)
    ensures StartsAscending(InsertByStart(m, sorted))
    decreases |sorted|
  {
    if !(sorted == [] || m.start <= sorted[0].start) {
      var tail := sorted[1..];
      assert StartsAscending(tail) by {
        forall i, j | 0 <= i < j < |tail| ensures tail[i].start <= tail[j].start {
          assert tail[i] == sorted[i + 1] && tail[j] == sorted[j + 1];
        }
      }
      InsertKeepsAscending(m, tail);
      var rest := InsertByStart(m, tail);
      var r := [sorted[0]] + rest;
      forall j | 0 < j < |r| ensures sorted[0].start <= r[j].start {
        assert r[j] == rest[j - 1];
        assert rest[j - 1] in multiset(rest);
        if rest[j - 1] != m {
          assert rest[j - 1] in multiset(tail);
          var k :| 0 <= k < |tail| && tail[k] == rest[j - 1];
          assert tail[k] == sorted[k + 1];
        }
      }
    }
  }

  /** The sort orders by start and keeps every match. */
  lemma {:induction false} SortByStartAscending(ms: seq<Match>)
    ensures StartsAscending(SortByStart(ms)) && multiset(SortByStart(ms)) == multiset(ms)
    decreases |ms|
  {
    if ms != [] {
      SortByStartAscending(ms[1..]);
      InsertKeepsAscending(ms[0], SortByStart(ms[1..]));
    }
  }

  /** Matches already in start order, as a search gives them, are left as
      they are. */
  lemma {:induction false} SortByStartKeepsSorted(ms: seq<Match>)
    requires StartsAscending(ms)
    ensures SortByStart(ms) == ms
    decreases |ms|
  {
    if ms != [] {
      var tail := ms[1..];
      assert StartsAscending(tail) by {
        forall i, j | 0 <= i < j < |tail| ensures tail[i].start <= tail[j].start {
          assert tail[i] == ms[i + 1] && tail[j] == ms[j + 1];
        }
      }
      SortByStartKeepsSorted(tail);
      if tail != [] {
        assert ms[0].start <= tail[0].start by { assert tail[0] == ms[1]; }
      }
      assert [ms[0]] + tail == ms;
    }
  }

  // ----- replaceAll's grouping -----

  /** The first `n` matches that lie on line `l`, in order. */
  function MatchesOn(ms: seq<Match>, l: nat, n: nat): seq<Match>
    requires n <= |ms|
  {
    if n == 0 then []
    else MatchesOn(ms, l, n - 1) + (if ms[n - 1].line == l then [ms[n - 1]] else [])
  }

  lemma MatchesOnStep(ms: seq<Match>, l: nat, n: nat, upTo: nat)
    requires upTo == n + 1 && upTo <= |ms|
    ensures MatchesOn(ms, l, upTo) == MatchesOn(ms, l, n) + (if ms[n].line == l then [ms[n]] else [])
  {
  }

  /** A line that no match lies on has no matches listed. */
  lemma {:induction false} MatchesOnNone(ms: seq<Match>, l: nat, n: nat)
    requires n <= |ms| && forall k :: 0 <= k < n ==> ms[k].line != l
    ensures MatchesOn(ms, l, n) == []
  {
    if n > 0 {
      MatchesOnNone(ms, l, n - 1);
    }
  }

  /** `byLine` lists the first `n` matches by line, and `order` holds its
      lines once each, in the order they were first met. */
  ghost predicate ListedBy(byLine: map<nat, seq<Match>>, order: seq<nat>, ms: seq<Match>, n: nat)
    requires n <= |ms|
  {
    && (forall l :: (l in byLine <==> MatchesOn(ms, l, n) != []) && (l in byLine ==> byLine[l] == MatchesOn(ms, l, n)))
    && (forall l :: l in order <==> l in byLine)
    && (forall i, j :: 0 <= i < j < |order| ==> order[i] != order[j])
  }

  /** The `Map` from line to matches that `replaceAll` builds, with its key
      order. */
  method ListByLine(matches: seq<Match>) returns (byLine: map<nat, seq<Match>>, order: seq<nat>)
    ensures ListedBy(byLine, order, matches, |matches|)
  {
    byLine, order := map[], [];
    assert forall l :: MatchesOn(matches, l, 0) == [];
    var index := 0;
    while index < |matches|
      invariant index <= |matches|
      invariant ListedBy(byLine, order, matches, index)
    {
      byLine, order := ListMatch(matches, index, byLine, order);
      index := index + 1;
    }
  }

  /** One turn of that loop: match `index` is appended to its line's list,
      and a line met for the first time joins the key order. */
  method ListMatch(matches: seq<Match>, index: nat, byLine: map<nat, seq<Match>>, order: seq<nat>)
    returns (byLine': map<nat, seq<Match>>, order': seq<nat>)
    requires index < |matches| && ListedBy(byLine, order, matches, index)
    ensures ListedBy(byLine', order', matches, index + 1)
  {
    var m := matches[index];
    byLine', order' := byLine, order;
    if m.line !in byLine {
      byLine' := byLine'[m.line := []];
      order' := order' + [m.line];
    }
    byLine' := byLine'[m.line := byLine'[m.line] + [m]];
    forall l
      ensures MatchesOn(matches, l, index + 1) == MatchesOn(matches, l, index) + (if m.line == l then [m] else [])
    {
      MatchesOnStep(matches, l, index, index + 1);
    }
  }

  /** A line rewritten by `replaceAll` with its matches `ms`. */
  function ReplacedLine(line: Line, ms: seq<Match>, pattern: string, useRegex: bool): Line
  {
    var sorted := SortByStart(ms);
    line.(text := Rebuilt(line.text, sorted, Replacements(sorted, pattern, line.text, useRegex), 0, 0))
  }

  /** The document after `replaceAll`: each line with matches rewritten, the
      others as they were. */
  function ReplaceAllLines(lines: seq<Line>, ms: seq<Match>, pattern: string, useRegex: bool): (r: seq<Line>)
    ensures |r| == |lines|
  {
    seq(|lines|, j requires 0 <= j < |lines| =>
      if MatchesOn(ms, j, |ms|) == [] then lines[j] else ReplacedLine(lines[j], MatchesOn(ms, j, |ms|), pattern, useRegex))
  }

  /** `replaceAll` leaves every line that no match lies on as it was. */
  lemma ReplaceAllKeepsUnmatchedLines(lines: seq<Line>, ms: seq<Match>, pattern: string, useRegex: bool, j: nat)
    requires j < |lines| && forall k :: 0 <= k < |ms| ==> ms[k].line != j
    ensures ReplaceAllLines(lines, ms, pattern, useRegex)[j] == lines[j]
  {
    MatchesOnNone(ms, j, |ms|);
  }

  /** `result` is `lines` with every line of `done` that has matches in
      `byLine` rewritten. */
  ghost predicate RewrittenUpTo(result: seq<Line>, lines: seq<Line>, byLine: map<nat, seq<Match>>, done: seq<nat>,
                                pattern: string, useRegex: bool)
  {
    && |result| == |lines|
    && forall j :: 0 <= j < |lines| ==>
         result[j] == if j in done && j in byLine then ReplacedLine(lines[j], byLine[j], pattern, useRegex) else lines[j]
  }

  /** One turn of `replaceAll`'s rewrite loop: line `l`, when it exists,
      is rebuilt from its matches sorted by start. */
  method RewriteListedLine(lines: seq<Line>, byLine: map<nat, seq<Match>>, ghost done: seq<nat>, l: nat,
                           pattern: string, useRegex: bool, result: seq<Line>) returns (result': seq<Line>)
    requires RewrittenUpTo(result, lines, byLine, done, pattern, useRegex)
    requires l !in done && l in byLine
    ensures RewrittenUpTo(result', lines, byLine, done + [l], pattern, useRegex)
  {
    result' := result;
    if l < |result| {
      var line := result[l];
      var text := RebuildLine(line.text, SortByStart(byLine[l]), pattern, useRegex);
      result' := result[l := line.(text := text)];
    }
  }

  /** Once every listed line is rewritten, the document is the one
      `replaceAll` specifies. */
  lemma ListedRewriteComplete(result: seq<Line>, lines: seq<Line>, byLine: map<nat, seq<Match>>, order: seq<nat>,
                              ms: seq<Match>, pattern: string, useRegex: bool)
    requires ListedBy(byLine, order, ms, |ms|)
    requires RewrittenUpTo(result, lines, byLine, order, pattern, useRegex)
    ensures result == ReplaceAllLines(lines, ms, pattern, useRegex)
  {
    forall j | 0 <= j < |lines|
      ensures result[j] == ReplaceAllLines(lines, ms, pattern, useRegex)[j]
    {
    }
  }

  /** `replaceAll`'s rewrite of the document: each line of `order` that
      exists is rebuilt from its matches in `byLine`, sorted by start. */
  method RewriteListedLines(lines: seq<Line>, byLine: map<nat, seq<Match>>, order: seq<nat>, ghost ms: seq<Match>,
                            pattern: string, useRegex: bool) returns (result: seq<Line>)
    requires ListedBy(byLine, order, ms, |ms|)
    ensures result == ReplaceAllLines(lines, ms, pattern, useRegex)
  {
    result := lines;
    var k := 0;
    while k < |order|
      invariant k <= |order|
      invariant RewrittenUpTo(result, lines, byLine, order[..k], pattern, useRegex)
    {
      var l := order[k];
      assert l !in order[..k];
      result := RewriteListedLine(lines, byLine, order[..k], l, pattern, useRegex, result);
      assert order[..k + 1] == order[..k] + [l];
      k := k + 1;
    }
    assert order[..k] == order;
    ListedRewriteComplete(result, lines, byLine, order, ms, pattern, useRegex);
  }

  // ----- the controller -----

  /** The scope `updateResults` searches: with the "in selection" box
      checked, the captured selection scope (the old one when there is no
      selection to capture); otherwise the whole document. */
  function ScopeFor(inSelection: bool, selection: Option<Selection>, current: Option<Selection>): (r: Option<Selection>)
    ensures !inSelection ==> r.None?
    ensures inSelection && r != current ==> r == CaptureSelectionScope(selection, current)
  {
    if inSelection then
      var scope := CaptureSelectionScope(selection, current);
      if scope.Some? then scope else current
    else None
  }

  /** The selection `ensureMatchSelection` sets: the match's range. */
  function MatchSelection(m: Match): Selection
  {
    Selection(Point(m.line, m.start), Point(m.line, m.end))
  }

  /** `replaceCurrent`'s new line text: the text before the match, its
      replacement, the text after it. */
  function SpliceMatch(text: string, m: Match, pattern: string, useRegex: bool): string
  {
    Slice(text, 0, m.start) + Replacement(m, pattern, text, useRegex) + Slice(text, m.end, |text|)
  }

  /** Replacing the current match alone rewrites its line as `replaceAll`
      would with that one match. */
  lemma SpliceIsSingleRebuild(text: string, m: Match, pattern: string, useRegex: bool)
    ensures SpliceMatch(text, m, pattern, useRegex)
            == Rebuilt(text, [m], Replacements([m], pattern, text, useRegex), 0, 0)
  {
    var reps := Replacements([m], pattern, text, useRegex);
    RebuiltStep(text, [m], reps, 0, 0);
  }

  /** A match of a text line puts the caret at its end and the selection
      over it, inside the document. */
  lemma MatchSelectionInDocument(lines: seq<Line>, scope: Option<Selection>, m: Match)
    requires Found(lines, scope, m) && lines[m.line].kind.Text?
    ensures Editor.ClampPoint(lines, m.line, m.end) == MatchSelection(m).end
    ensures PointIn(lines, MatchSelection(m).start) && PointIn(lines, MatchSelection(m).end)
  {
  }

  /** `replaceCurrent` can leave the caret past the end of its line: with
      "aaa" replaced by "" the line is empty, no match remains to select,
      and the caret (0, 3) that selected the match stays where it was. */
  lemma ReplaceLeavesCaretPastLine()
    ensures var m := Match(0, 0, 3, "aaa", None, None);
            var lines := [Line(0, Text, SpliceMatch("aaa", m, "", false), 0, false)];
            lines[0].text == "" && MatchSelection(m).end == Point(0, 3) && !PointIn(lines, MatchSelection(m).end)
  {
    var m := Match(0, 0, 3, "aaa", None, None);
    assert Slice("aaa", 0, 0) == "" && Slice("aaa", 3, 3) == "";
  }

  /** The part of the editor state the search panel moves. */
  datatype View = View(cursor: Point, selection: Option<Selection>, anchor: Option<Point>)

  class SearchController {
    const editor: Editor.Editor
    var isOpen: bool
    /** The query and replacement inputs and the three check boxes. */
    var query: string
    var replaceValue: string
    var useRegex: bool
    var caseSensitive: bool
    var inSelection: bool
    var selectionScope: Option<Selection>
    var matches: seq<Match>
    var matchesByLine: map<nat, seq<Entry>>
    var activeIndex: int
    var regexError: Option<string>
    var lastEvaluatedVersion: int
    var needsUpdate: bool

    /** The active index names a match or is -1, an error comes without
        matches, and the per-line index describes the matches. */
    ghost predicate Valid()
      reads this
    {
      && -1 <= activeIndex < |matches|
      && (regexError.Some? ==> matches == [] && activeIndex == -1)
      && GroupedBy(matchesByLine, matches, |matches|)
    }

    /** The state `init` sets up, with the panel's inputs empty. */
    constructor (editor: Editor.Editor)
      ensures this.editor == editor && Valid()
      ensures !isOpen && matches == [] && activeIndex == -1 && regexError.None? && selectionScope.None?
      ensures lastEvaluatedVersion == -1 && !needsUpdate
    {
      this.editor := editor;
      isOpen := false;
      query, replaceValue := "", "";
      useRegex, caseSensitive, inSelection := false, false, false;
      selectionScope := None;
      matches := [];
      matchesByLine := map[];
      activeIndex := -1;
      regexError := None;
      lastEvaluatedVersion := -1;
      needsUpdate := false;
    }

    /** The editor shows match `m`: caret at its end, selection over it,
        anchor at its start. */
    ghost predicate ShowsMatch(m: Match)
      requires |editor.lines| >= 1
      reads editor
    {
      && editor.cursor == Editor.ClampPoint(editor.lines, m.line, m.end)
      && editor.selection == Some(MatchSelection(m))
      && editor.anchor == Some(MatchSelection(m).start)
    }

    /** `ensureMatchSelection` */
    method EnsureMatchSelection(m: Match)
      requires |editor.lines| >= 1
      modifies editor`cursor, editor`selection, editor`anchor
      ensures ShowsMatch(m)
    {
      editor.SetCursor(m.line, m.end, true);
      editor.selection := Some(MatchSelection(m));
      editor.anchor := Some(MatchSelection(m).start);
    }

    /** `setActiveMatch`: an index outside the list clears the active match
        and leaves the editor alone; otherwise that match becomes active and
        is selected. */
    method SetActiveMatch(index: int)
      requires Valid() && |editor.lines| >= 1
      modifies this`activeIndex, editor`cursor, editor`selection, editor`anchor
      ensures Valid()
      ensures 0 <= index < |matches| ==> activeIndex == index && ShowsMatch(matches[index])
      ensures !(0 <= index < |matches|) ==> activeIndex == -1 && unchanged(editor)
    {
      if index < 0 || index >= |matches| {
        activeIndex := -1;
        return;
      }
      activeIndex := index;
      EnsureMatchSelection(matches[index]);
    }

    /** `step(direction)`: nothing without matches or with an error;
        otherwise the index `StepIndex` gives becomes active. */
    method Step(direction: int)
      requires Valid() && |editor.lines| >= 1
      modifies this`activeIndex, editor`cursor, editor`selection, editor`anchor
      ensures Valid()
      ensures |matches| == 0 || regexError.Some? ==> activeIndex == old(activeIndex) && unchanged(editor)
      ensures |matches| > 0 && regexError.None? ==>
                var next := StepIndex(old(activeIndex), direction, |matches|);
                activeIndex == (if 0 <= next < |matches| then next else -1)
      ensures |matches| > 0 && regexError.None? && activeIndex >= 0 ==> ShowsMatch(matches[activeIndex])
    {
      if |matches| == 0 || regexError.Some? {
        return;
      }
      var length := |matches|;
      var nextIndex := activeIndex;
      if nextIndex == -1 {
        nextIndex := if direction > 0 then 0 else length - 1;
      } else {
        nextIndex := JsRem(nextIndex + direction + length, length);
      }
      SetActiveMatch(nextIndex);
    }

    /** `clearMatches` */
    method ClearMatches()
      modifies this`matches, this`matchesByLine, this`activeIndex, this`regexError, this`needsUpdate,
               this`lastEvaluatedVersion
      ensures Valid()
      ensures matches == [] && activeIndex == -1 && regexError.None? && !needsUpdate
      ensures lastEvaluatedVersion == editor.documentVersion
    {
      matches := [];
      matchesByLine := map[];
      activeIndex := -1;
      regexError := None;
      needsUpdate := false;
      lastEvaluatedVersion := editor.documentVersion;
    }

    /** What the editor shows: caret, selection and anchor. */
    function CurrentView(): View
      reads editor
    {
      View(editor.cursor, editor.selection, editor.anchor)
    }

    /** The match `updateResults` tries to keep active: the active one when
        asked to preserve it. */
    function PreviousActive(preserveActive: bool): Option<Match>
      requires Valid()
      reads this
    {
      if preserveActive && activeIndex >= 0 then Some(matches[activeIndex]) else None
    }

    /** The state a search result `r` leaves: its matches or error, the
        active match `NextActiveIndex` chooses among the matches shown in the
        editor (the editor showing `before` when there is none), and the
        document version searched. */
    ghost predicate ResultShown(r: SearchResult, preferredIndex: Option<int>, previous: Option<Match>, before: View)
      requires |editor.lines| >= 1
      reads this, editor
    {
      && matches == r.matches && regexError == r.regexError
      && activeIndex == (if r.regexError.Some? then -1 else NextActiveIndex(r.matches, preferredIndex, previous))
      && lastEvaluatedVersion == editor.documentVersion && !needsUpdate
      && (activeIndex >= 0 ==> ShowsMatch(matches[activeIndex]))
      && (activeIndex == -1 ==> CurrentView() == before)
    }

    /** What `updateResults` leaves behind on an open panel that had scope
        `scope` and showed `before`: the scope it captured and the result of
        a fresh search in it. */
    ghost predicate Refreshed(scope: Option<Selection>, preferredIndex: Option<int>, previous: Option<Match>,
                              before: View, exec: Exec, compileError: Option<string>, deadline: Option<nat>,
                              duration: string)
      requires ExecSound(exec) && |editor.lines| >= 1
      reads this, editor
    {
      && selectionScope == ScopeFor(inSelection, before.selection, scope)
      && ResultShown(SearchLines(editor.lines, query, useRegex, caseSensitive, selectionScope, exec, compileError,
                                 deadline, duration),
                     preferredIndex, previous, before)
    }

    /** The scope capture at the start of `updateResults`. */
    method CaptureScope()
      modifies this`selectionScope
      ensures selectionScope == ScopeFor(inSelection, editor.selection, old(selectionScope))
    {
      if inSelection {
        var scope := CaptureSelectionScope(editor.selection, selectionScope);
        if scope.Some? {
          selectionScope := scope;
        }
      } else {
        selectionScope := None;
      }
    }

    /** The end of `updateResults` for a non-empty query: the search's
        matches or error, and the active match chosen among the matches. */
    method ShowResult(found: seq<Match>, error: Option<string>, preferredIndex: Option<int>, previous: Option<Match>)
      requires Valid() && |editor.lines| >= 1 && (error.Some? ==> found == [])
      modifies this`matches, this`matchesByLine, this`activeIndex, this`regexError, this`lastEvaluatedVersion,
               this`needsUpdate, editor`cursor, editor`selection, editor`anchor
      ensures Valid()
      ensures ResultShown(SearchResult(found, error), preferredIndex, previous, old(CurrentView()))
    {
      matches, regexError := found, error;
      if regexError.Some? {
        matches := [];
        matchesByLine := map[];
        activeIndex := -1;
        lastEvaluatedVersion := editor.documentVersion;
        needsUpdate := false;
        return;
      }
      matchesByLine := GroupMatchesByLine(matches);
      activeIndex := -1;
      var nextActive := NextActiveIndex(matches, preferredIndex, previous);
      SetActiveMatch(nextActive);
      lastEvaluatedVersion := editor.documentVersion;
      needsUpdate := false;
    }

    /** The part of `updateResults` after the scope capture: an empty query
        clears the matches, any other is searched and its result shown. */
    method SearchAndShow(preferredIndex: Option<int>, previous: Option<Match>, exec: Exec,
                         compileError: Option<string>, deadline: Option<nat>, duration: string)
      requires Valid() && ExecSound(exec) && |editor.lines| >= 1
      modifies this`matches, this`matchesByLine, this`activeIndex, this`regexError,
               this`lastEvaluatedVersion, this`needsUpdate, editor`cursor, editor`selection, editor`anchor
      ensures Valid()
      ensures ResultShown(SearchLines(editor.lines, query, useRegex, caseSensitive, selectionScope, exec, compileError,
                                      deadline, duration),
                          preferredIndex, previous, old(CurrentView()))
    {
      if query == [] {
        ClearMatches();
        lastEvaluatedVersion := editor.documentVersion;
        needsUpdate := false;
        return;
      }
      SearchQuery(preferredIndex, previous, exec, compileError, deadline, duration);
    }

    /** A non-empty query is searched and its result shown. */
    method SearchQuery(preferredIndex: Option<int>, previous: Option<Match>, exec: Exec,
                       compileError: Option<string>, deadline: Option<nat>, duration: string)
      requires Valid() && ExecSound(exec) && |editor.lines| >= 1 && query != []
      modifies this`matches, this`matchesByLine, this`activeIndex, this`regexError,
               this`lastEvaluatedVersion, this`needsUpdate, editor`cursor, editor`selection, editor`anchor
      ensures Valid()
      ensures ResultShown(SearchLines(editor.lines, query, useRegex, caseSensitive, selectionScope, exec, compileError,
                                      deadline, duration),
                          preferredIndex, previous, old(CurrentView()))
    {
      var found, error := ComputeMatches(editor.lines, query, useRegex, caseSensitive, selectionScope, exec,
                                         compileError, deadline, duration);
      ShowResult(found, error, preferredIndex, previous);
    }

    /** `updateResults`: nothing while the panel is closed. */
    method UpdateResults(preserveActive: bool, preferredIndex: Option<int>, exec: Exec,
                         compileError: Option<string>, deadline: Option<nat>, duration: string)
      requires Valid() && ExecSound(exec) && |editor.lines| >= 1
      modifies this`selectionScope, this`matches, this`matchesByLine, this`activeIndex, this`regexError,
               this`lastEvaluatedVersion, this`needsUpdate, editor`cursor, editor`selection, editor`anchor
      ensures Valid()
      ensures !isOpen ==> unchanged(this) && unchanged(editor)
      ensures isOpen ==> Refreshed(old(selectionScope), preferredIndex, old(PreviousActive(preserveActive)),
                                   old(CurrentView()), exec, compileError, deadline, duration)
    {
      if !isOpen {
        return;
      }
      CaptureScope();
      var previous := PreviousActive(preserveActive);
      SearchAndShow(preferredIndex, previous, exec, compileError, deadline, duration);
    }

    /** The editing half of `replaceCurrent`: the history step, the new
        line text and the version bump. */
    method ReplaceMatchText(m: Match)
      requires editor.Valid() && m.line < |editor.lines|
      modifies editor`lines, editor`undoStack, editor`redoStack, editor`documentVersion
      ensures var line := old(editor.lines[m.line]);
              editor.lines == old(editor.lines)[m.line := line.(text := SpliceMatch(line.text, m, replaceValue, useRegex))]
      ensures editor.Recorded() && editor.documentVersion == old(editor.documentVersion) + 1
    {
      editor.SaveHistory();
      var line := editor.lines[m.line];
      var replacement := ApplyReplacementPattern(m, replaceValue, line.text, useRegex);
      editor.lines := editor.lines[m.line := line.(text := Slice(line.text, 0, m.start) + replacement
                                                           + Slice(line.text, m.end, |line.text|))];
      editor.MarkDocumentVersion();
    }

    /** The editing half of `replaceAll`: the history step, every line with
        matches rewritten, and the version bump. */
    method ReplaceListedMatches()
      requires editor.Valid()
      modifies editor`lines, editor`undoStack, editor`redoStack, editor`documentVersion
      ensures editor.lines == ReplaceAllLines(old(editor.lines), matches, replaceValue, useRegex)
      ensures editor.Recorded() && editor.documentVersion == old(editor.documentVersion) + 1
    {
      editor.SaveHistory();
      var byLine, order := ListByLine(matches);
      editor.lines := RewriteListedLines(editor.lines, byLine, order, matches, replaceValue, useRegex);
      editor.MarkDocumentVersion();
    }

    /** When `replaceCurrent` acts: the panel is open, a match is active
        without an error, and its line exists. */
    predicate CanReplaceCurrent()
      reads this, editor
    {
      && isOpen && |matches| > 0 && activeIndex != -1 && regexError.None?
      && 0 <= activeIndex < |matches| && matches[activeIndex].line < |editor.lines|
    }

    /** `replaceCurrent`: with an active match on an existing line, the line
        text gets the match replaced, the step is recorded in the history,
        the document version moves on and the search is refreshed, keeping
        the active position; otherwise nothing happens. */
    method ReplaceCurrent(exec: Exec, compileError: Option<string>, deadline: Option<nat>, duration: string)
      requires Valid() && editor.Valid() && ExecSound(exec)
      modifies this`selectionScope, this`matches, this`matchesByLine, this`activeIndex, this`regexError,
               this`lastEvaluatedVersion, this`needsUpdate,
               editor`lines, editor`undoStack, editor`redoStack, editor`documentVersion,
               editor`cursor, editor`selection, editor`anchor
      ensures Valid()
      ensures !old(CanReplaceCurrent()) ==> unchanged(this) && unchanged(editor)
      ensures old(CanReplaceCurrent()) ==>
                var m := old(matches[activeIndex]);
                var line := old(editor.lines[m.line]);
                && editor.lines == old(editor.lines)[m.line := line.(text := SpliceMatch(line.text, m, replaceValue, useRegex))]
                && editor.Recorded() && editor.documentVersion == old(editor.documentVersion) + 1
                && Refreshed(old(selectionScope), Some(old(activeIndex)), None, old(CurrentView()),
                             exec, compileError, deadline, duration)
    {
      if !CanReplaceCurrent() {
        return;
      }
      var m := matches[activeIndex];
      ghost var scope, before := selectionScope, CurrentView();
      ReplaceMatchText(m);
      var preferred := if activeIndex < |matches| - 1 then activeIndex else |matches| - 1;
      assert selectionScope == scope && CurrentView() == before && PreviousActive(false) == None;
      UpdateResults(false, Some(preferred), exec, compileError, deadline, duration);
    }

    /** `replaceAll`: with matches and no error, every line with matches is
        rewritten, the step is recorded in the history, the document version
        moves on and the search is refreshed; otherwise nothing happens. */
    method ReplaceAll(exec: Exec, compileError: Option<string>, deadline: Option<nat>, duration: string)
      requires Valid() && editor.Valid() && ExecSound(exec)
      modifies this`selectionScope, this`matches, this`matchesByLine, this`activeIndex, this`regexError,
               this`lastEvaluatedVersion, this`needsUpdate,
               editor`lines, editor`undoStack, editor`redoStack, editor`documentVersion,
               editor`cursor, editor`selection, editor`anchor
      ensures Valid()
      ensures !old(isOpen && |matches| > 0 && regexError.None?) ==> unchanged(this) && unchanged(editor)
      ensures old(isOpen && |matches| > 0 && regexError.None?) ==>
                && editor.lines == ReplaceAllLines(old(editor.lines), old(matches), replaceValue, useRegex)
                && editor.Recorded() && editor.documentVersion == old(editor.documentVersion) + 1
                && Refreshed(old(selectionScope), None, None, old(CurrentView()), exec, compileError, deadline, duration)
    {
      if !isOpen || |matches| == 0 || regexError.Some? {
        return;
      }
      ReplaceListedMatches();
      UpdateResults(false, None, exec, compileError, deadline, duration);
    }
  }
}
