/**
 * The outline document: a flat sequence of lines, each with an indent, from
 * which a tree is inferred (a line's children are the deeper lines that
 * follow it). Carets and selections are (lineIndex, charIndex) points.
 */
module Outline {
  import opened JsString

  /** The part of an image payload the engine copies around. */
  datatype ImageData = ImageData(src: string, width: int, height: int, name: string, mimeType: string)

  datatype Kind = Text | Image(image: ImageData)

  /** A line of the outline. Image lines are created with empty text; the
      field is kept for every line because a selection collapse may write
      text onto an image line. */
  datatype Line = Line(id: nat, kind: Kind, text: string, indent: nat, collapsed: bool)

  datatype Point = Point(line: nat, ch: nat)

  datatype Selection = Selection(start: Point, end: Point)

  /** `getLineLength`: an image line has length 1, a text line its text length. */
  function LineLength(l: Line): (n: nat)
    ensures l.kind.Image? ==> n == 1
    ensures l.kind.Text? ==> n == |l.text|
  {
    if l.kind.Image? then 1 else |l.text|
  }

  predicate PointIn(lines: seq<Line>, p: Point)
  {
    p.line < |lines| && p.ch <= LineLength(lines[p.line])
  }

  predicate AllText(lines: seq<Line>)
  {
    forall k :: 0 <= k < |lines| ==> lines[k].kind.Text?
  }

  // ----- points and selections -----

  /** Lexicographic order on points. */
  predicate Before(a: Point, b: Point)
  {
    a.line < b.line || (a.line == b.line && a.ch < b.ch)
  }

  /** `comparePoints`: negative, zero or positive as `a` is before, equal to
      or after `b`. */
  function ComparePoints(a: Point, b: Point): (r: int)
    ensures r < 0 <==> Before(a, b)
    ensures r == 0 <==> a == b
    ensures r > 0 <==> Before(b, a)
  {
    if a.line != b.line then a.line - b.line else a.ch - b.ch
  }

  /** `getNormalizedSelection` of a present selection: the same two points,
      the earlier one first. */
  function NormalizeSelection(s: Selection): (r: Selection)
    ensures !Before(r.end, r.start)
    ensures (r.start == s.start && r.end == s.end) || (r.start == s.end && r.end == s.start)
  {
    if ComparePoints(s.start, s.end) <= 0 then s else Selection(s.end, s.start)
  }

  /** Swapping the raw end points does not change the normalized selection. */
  lemma NormalizeIgnoresOrder(s: Selection)
    ensures NormalizeSelection(Selection(s.end, s.start)) == NormalizeSelection(s)
  {
  }

  /** `hasSelection`: a selection is present and its end points differ. */
  function HasSelection(sel: Option<Selection>): (b: bool)
    ensures b <==> sel.Some? && sel.value.start != sel.value.end
  {
    sel.Some? && ComparePoints(sel.value.start, sel.value.end) != 0
  }

  datatype LineRange = LineRange(start: nat, end: nat)

  /** `getSelectionLineRange`: the lines the normalized selection touches. */
  function SelectionLineRange(sel: Option<Selection>): (r: Option<LineRange>)
    ensures r.None? <==> sel.None?
    ensures r.Some? ==> r.value.start <= r.value.end
    ensures r.Some? ==> {r.value.start, r.value.end} == {sel.value.start.line, sel.value.end.line}
  {
    match sel
    case None => None
    case Some(s) =>
      var n := NormalizeSelection(s);
      Some(LineRange(n.start.line, n.end.line))
  }

  // ----- the tree inferred from indents -----

  /** The scan of `getDescendantEnd`: the first index from `j` on whose line
      is not deeper than `base`. */
  function DeeperRunEnd(lines: seq<Line>, base: nat, j: nat): (r: nat)
    requires j <= |lines|
    ensures j <= r <= |lines|
    ensures forall k :: j <= k < r ==> lines[k].indent > base
    ensures r == |lines| || lines[r].indent <= base
    decreases |lines| - j
  {
    if j < |lines| && lines[j].indent > base then DeeperRunEnd(lines, base, j + 1) else j
  }

  /** `getDescendantEnd(i)`: one past the last line of the block headed by `i`. */
  function DescendantEnd(lines: seq<Line>, i: nat): (r: nat)
    requires i < |lines|
    ensures i < r <= |lines|
    ensures forall k :: i < k < r ==> lines[k].indent > lines[i].indent
    ensures r == |lines| || lines[r].indent <= lines[i].indent
  {
    DeeperRunEnd(lines, lines[i].indent, i + 1)
  }

  /** `hasChildren(i)`: the next line is deeper. */
  function HasChildren(lines: seq<Line>, i: nat): (b: bool)
    requires i < |lines|
    ensures b <==> DescendantEnd(lines, i) > i + 1
  {
    i + 1 < |lines| && lines[i + 1].indent > lines[i].indent
  }

  /** The scan of `getParent`: the nearest index at or before `k` whose
      indent is below `indent`. */
  function ShallowerBefore(lines: seq<Line>, indent: nat, k: int): (r: Option<nat>)
    requires -1 <= k < |lines|
    ensures r.Some? ==> r.value <= k && lines[r.value].indent < indent
    ensures r.Some? ==> forall j :: r.value < j <= k ==> lines[j].indent >= indent
    ensures r.None? ==> forall j :: 0 <= j <= k ==> lines[j].indent >= indent
    decreases k + 1
  {
    if k < 0 then None
    else if lines[k].indent < indent then Some(k)
    else ShallowerBefore(lines, indent, k - 1)
  }

  /** `getParent(i)`: the nearest earlier line with a strictly smaller indent. */
  function Parent(lines: seq<Line>, i: nat): (r: Option<nat>)
    requires i < |lines|
    ensures r.Some? ==> r.value < i && lines[r.value].indent < lines[i].indent
    ensures r.Some? ==> forall j :: r.value < j < i ==> lines[j].indent >= lines[i].indent
    ensures r.None? ==> forall j :: 0 <= j < i ==> lines[j].indent >= lines[i].indent
  {
    ShallowerBefore(lines, lines[i].indent, i - 1)
  }

  /** `isVisible(i)`: no line on the parent chain above `i` is collapsed. */
  function IsVisible(lines: seq<Line>, i: nat): bool
    requires i < |lines|
    decreases i
  {
    match Parent(lines, i)
    case None => true
    case Some(p) => !lines[p].collapsed && IsVisible(lines, p)
  }

  /** A line lies inside the block of `a` exactly when every line from just
      after `a` up to it is deeper than `a`. */
  lemma InsideBlock(lines: seq<Line>, a: nat, j: nat)
    requires a < j < |lines|
    ensures DescendantEnd(lines, a) > j <==> forall k :: a < k <= j ==> lines[k].indent > lines[a].indent
  {
  }

  /** Visibility, stated without the parent chain: line `i` is visible exactly
      when it lies inside the block of no collapsed line. */
  lemma {:induction false} VisibleIffOutsideCollapsedBlocks(lines: seq<Line>, i: nat)
    requires i < |lines|
    ensures IsVisible(lines, i) <==>
            forall a :: 0 <= a < i && lines[a].collapsed ==> DescendantEnd(lines, a) <= i
    decreases i
  {
    match Parent(lines, i)
    case None =>
      BlocksEndBy(lines, 0, i);
    case Some(p) =>
      VisibleIffOutsideCollapsedBlocks(lines, p);
      // the parent's block reaches past i
      assert DescendantEnd(lines, p) > i by {
        InsideBlock(lines, p, i);
      }
      BlocksEndBy(lines, p + 1, i);
      BlocksAboveParent(lines, i, p);
  }

  /** Lines from `lo` up to `i` that are not shallower than `i` end their
      blocks by `i`. */
  lemma BlocksEndBy(lines: seq<Line>, lo: nat, i: nat)
    requires i < |lines|
    requires forall a :: lo <= a < i ==> lines[a].indent >= lines[i].indent
    ensures forall a :: lo <= a < i ==> DescendantEnd(lines, a) <= i
  {
    forall a | lo <= a < i
      ensures DescendantEnd(lines, a) <= i
    {
      assert lines[i].indent <= lines[a].indent;
    }
  }

  /** A block opened above the parent `p` of `i` contains `i` exactly when
      it contains `p`. */
  lemma BlocksAboveParent(lines: seq<Line>, i: nat, p: nat)
    requires i < |lines| && Parent(lines, i) == Some(p)
    ensures forall a :: 0 <= a < p ==> (DescendantEnd(lines, a) <= i <==> DescendantEnd(lines, a) <= p)
  {
    forall a | 0 <= a < p
      ensures DescendantEnd(lines, a) <= i <==> DescendantEnd(lines, a) <= p
    {
      if DescendantEnd(lines, a) > p {
        InsideBlock(lines, a, p);
        forall k | a < k <= i
          ensures lines[k].indent > lines[a].indent
        {
          if k > p {
            assert lines[k].indent > lines[p].indent;
          }
        }
        InsideBlock(lines, a, i);
      }
    }
  }

  /** The visibility of every line. */
  function VisibleFlags(lines: seq<Line>): (r: seq<bool>)
    ensures |r| == |lines| && forall i :: 0 <= i < |lines| ==> r[i] == IsVisible(lines, i)
  {
    seq(|lines|, i requires 0 <= i < |lines| => IsVisible(lines, i))
  }

  /** The indices below `n` whose flag is set, in order. */
  function SetIndices(flags: seq<bool>, n: nat): (r: seq<nat>)
    requires n <= |flags|
    decreases n
  {
    if n == 0 then []
    else SetIndices(flags, n - 1) + (if flags[n - 1] then [n - 1] else [])
  }

  /** The set indices are strictly increasing, in range, and are exactly the
      positions whose flag is set. */
  lemma {:induction false} SetIndicesSpec(flags: seq<bool>, n: nat)
    requires n <= |flags|
    ensures var r := SetIndices(flags, n);
            && (forall k :: 0 <= k < |r| ==> r[k] < n)
            && (forall j, k :: 0 <= j < k < |r| ==> r[j] < r[k])
            && (forall i :: 0 <= i < n ==> (i in r <==> flags[i]))
    decreases n
  {
    if n > 0 {
      SetIndicesSpec(flags, n - 1);
    }
  }

  /** `getVisibleLines` as a value: the indices below `n` of the visible
      lines, in order. */
  function VisibleIndices(lines: seq<Line>, n: nat): (r: seq<nat>)
    requires n <= |lines|
    decreases n
  {
    if n == 0 then []
    else VisibleIndices(lines, n - 1) + (if IsVisible(lines, n - 1) then [n - 1] else [])
  }

  lemma {:induction false} VisibleIndicesAreSetIndices(lines: seq<Line>, n: nat)
    requires n <= |lines|
    ensures VisibleIndices(lines, n) == SetIndices(VisibleFlags(lines), n)
    decreases n
  {
    if n > 0 {
      VisibleIndicesAreSetIndices(lines, n - 1);
    }
  }

  /** The visible indices are strictly increasing, in range, and hold
      exactly the visible lines. */
  lemma VisibleIndicesSpec(lines: seq<Line>)
    ensures var r := VisibleIndices(lines, |lines|);
            && (forall k :: 0 <= k < |r| ==> r[k] < |lines|)
            && (forall j, k :: 0 <= j < k < |r| ==> r[j] < r[k])
            && (forall i :: 0 <= i < |lines| ==> (i in r <==> IsVisible(lines, i)))
  {
    VisibleIndicesAreSetIndices(lines, |lines|);
    SetIndicesSpec(VisibleFlags(lines), |lines|);
  }

  // ----- sequence surgery -----

  /** Exchange the adjacent ranges `[a, b)` and `[b, c)`. */
  function Swap<T>(s: seq<T>, a: nat, b: nat, c: nat): (r: seq<T>)
    requires a <= b <= c <= |s|
    ensures |r| == |s|
  {
    s[..a] + s[b..c] + s[a..b] + s[c..]
  }

  /** Where the parts of a swap end up. */
  lemma SwapParts<T>(s: seq<T>, a: nat, b: nat, c: nat)
    requires a <= b <= c <= |s|
    ensures var r := Swap(s, a, b, c);
            && r[..a] == s[..a] && r[c..] == s[c..]
            && r[a..a + (c - b)] == s[b..c] && r[a + (c - b)..c] == s[a..b]
  {
  }

  /** A swap only rearranges. */
  lemma SwapPermutes<T>(s: seq<T>, a: nat, b: nat, c: nat)
    requires a <= b <= c <= |s|
    ensures multiset(Swap(s, a, b, c)) == multiset(s)
  {
    assert s == s[..a] + s[a..b] + s[b..c] + s[c..];
  }

  /** Inserting `y` right behind the middle part of a three-part sequence. */
  lemma InsertBehindMiddle<T>(pre: seq<T>, mid: seq<T>, post: seq<T>, y: T)
    ensures var s := pre + mid + post;
            s[..|pre| + |mid|] + [y] + s[|pre| + |mid|..] == pre + (mid + [y]) + post
  {
    var s := pre + mid + post;
    assert s[..|pre| + |mid|] == pre + mid;
    assert s[|pre| + |mid|..] == post;
  }

  /** Updating one element is splicing it in. */
  lemma UpdateIsSplice<T>(s: seq<T>, i: nat, x: T)
    requires i < |s|
    ensures s[i := x] == s[..i] + [x] + s[i + 1..]
  {
    var r := s[..i] + [x] + s[i + 1..];
    assert |r| == |s|;
    forall k | 0 <= k < |s| ensures s[i := x][k] == r[k] {
      if k < i { assert r[k] == s[k]; }
      else if k > i { assert r[k] == s[k]; }
    }
  }

  /** Updating one element and then cutting out the elements after it up
      to `c` is splicing the element in place of the whole stretch. */
  lemma UpdateThenCut<T>(s: seq<T>, i: nat, x: T, c: nat)
    requires i < c <= |s|
    ensures s[i := x][..i + 1] + s[i := x][c..] == s[..i] + [x] + s[c..]
  {
    var u := s[i := x];
    assert u[..i + 1] == s[..i] + [x];
    assert u[c..] == s[c..];
  }

  /** The pieces around one element of a sequence. */
  lemma AroundElement<T>(pre: seq<T>, x: T, post: seq<T>)
    ensures var s := pre + [x] + post;
            && s[..|pre|] == pre && s[|pre|] == x
            && s[..|pre| + 1] == pre + [x] && s[|pre| + 1..] == post
  {
    var s := pre + [x] + post;
    assert s[..|pre| + 1] == pre + [x];
    assert s[|pre| + 1..] == post;
  }

  predicate UniqueIds(lines: seq<Line>)
  {
    forall i, j :: 0 <= i < |lines| && 0 <= j < |lines| && i != j ==> lines[i].id != lines[j].id
  }

  predicate IdsBelow(lines: seq<Line>, bound: nat)
  {
    forall k :: 0 <= k < |lines| ==> lines[k].id < bound
  }

  /** Ids stay unique when lines are only rearranged. */
  lemma UniqueUnderPermutation(s: seq<Line>, r: seq<Line>)
    requires UniqueIds(s)
    requires multiset(r) == multiset(s)
    ensures UniqueIds(r)
  {
    forall i, j | 0 <= i < |r| && 0 <= j < |r| && i != j
      ensures r[i].id != r[j].id
    {
      if r[i].id == r[j].id {
        assert r[i] in multiset(s) && r[j] in multiset(s);
        var x :| 0 <= x < |s| && s[x] == r[i];
        var y :| 0 <= y < |s| && s[y] == r[j];
        assert x == y;
        assert r[i] == r[j];
        MultisetTwice(r, i, j);
        assert multiset(s)[s[x]] >= 2;
        MultisetOnce(s, x);
      }
    }
  }

  lemma MultisetTwice<T>(r: seq<T>, i: nat, j: nat)
    requires i < j < |r| || j < i < |r|
    requires r[i] == r[j]
    ensures multiset(r)[r[i]] >= 2
  {
    var lo := if i < j then i else j;
    var hi := if i < j then j else i;
    assert r == r[..lo] + [r[lo]] + r[lo + 1..hi] + [r[hi]] + r[hi + 1..];
  }

  /** In a sequence of lines with unique ids, each line occurs once. */
  lemma MultisetOnce(s: seq<Line>, x: nat)
    requires UniqueIds(s) && x < |s|
    ensures multiset(s)[s[x]] == 1
  {
    assert s == s[..x] + [s[x]] + s[x + 1..];
    var before, after := s[..x], s[x + 1..];
    assert forall k :: 0 <= k < |before| ==> before[k].id != s[x].id;
    assert forall k :: 0 <= k < |after| ==> after[k] == s[x + 1 + k] && after[k].id != s[x].id;
  }

  /** A sub-sequence keeps ids unique and below a bound. */
  lemma UniqueSubsequence(s: seq<Line>, a: nat, b: nat, c: nat, d: nat)
    requires a <= b <= c <= d <= |s|
    requires UniqueIds(s)
    ensures UniqueIds(s[a..b] + s[c..d])
  {
    var r := s[a..b] + s[c..d];
    forall i, j | 0 <= i < |r| && 0 <= j < |r| && i != j
      ensures r[i].id != r[j].id
    {
      var x := if i < b - a then a + i else c + (i - (b - a));
      var y := if j < b - a then a + j else c + (j - (b - a));
      assert r[i] == s[x] && r[j] == s[y];
    }
  }
  /** Edits that keep every position's id keep ids unique and bounded. */
  lemma SameIds(s: seq<Line>, r: seq<Line>, bound: nat)
    requires |r| == |s| && forall k :: 0 <= k < |s| ==> r[k].id == s[k].id
    ensures UniqueIds(s) ==> UniqueIds(r)
    ensures IdsBelow(s, bound) ==> IdsBelow(r, bound)
  {
  }

  /** A sequence that agrees with `s` before `a`, has the id of `s[a]` at
      `a` and, after `a`, agrees with the part of `s` from `c` on, is `s`
      with `[a, c)` replaced by one line; it keeps ids unique and bounded. */
  lemma SpliceKeepsIds(s: seq<Line>, r: seq<Line>, a: nat, c: nat, bound: nat)
    requires a < c <= |s| && a < |r| && r[..a] == s[..a] && r[a + 1..] == s[c..] && r[a].id == s[a].id
    ensures r == s[..a] + [r[a]] + s[c..]
    ensures UniqueIds(s) ==> UniqueIds(r)
    ensures IdsBelow(s, bound) ==> IdsBelow(r, bound)
  {
    assert r == r[..a] + [r[a]] + r[a + 1..];
    ReplaceRangeIds(s, a, c, r[a], bound);
  }

  /** Replacing the lines `[a, c)` by one line with the id of line `a`. */
  lemma ReplaceRangeIds(s: seq<Line>, a: nat, c: nat, x: Line, bound: nat)
    requires a < c <= |s| && x.id == s[a].id
    ensures UniqueIds(s) ==> UniqueIds(s[..a] + [x] + s[c..])
    ensures IdsBelow(s, bound) ==> IdsBelow(s[..a] + [x] + s[c..], bound)
  {
    var r := s[..a] + [x] + s[c..];
    var t := s[0..a + 1] + s[c..|s|];
    assert |r| == |t|;
    assert forall k :: 0 <= k < |r| ==> r[k].id == t[k].id by {
      forall k | 0 <= k < |r| ensures r[k].id == t[k].id {
        if k < a { assert r[k] == s[k] == t[k]; }
        else if k == a { assert t[k] == s[a]; }
        else { assert r[k] == s[c + k - a - 1] == t[k]; }
      }
    }
    if UniqueIds(s) {
      UniqueSubsequence(s, 0, a + 1, c, |s|);
      SameIds(t, r, bound);
    }
    if IdsBelow(s, bound) {
      forall k | 0 <= k < |r| ensures r[k].id < bound {
        if k < a { assert r[k] == s[k]; }
        else if k > a { assert r[k] == s[c + k - a - 1]; }
      }
    }
  }

  /** Removing the lines `[a, c)`. */
  lemma RemoveRangeIds(s: seq<Line>, a: nat, c: nat, bound: nat)
    requires a <= c <= |s|
    ensures UniqueIds(s) ==> UniqueIds(s[..a] + s[c..])
    ensures IdsBelow(s, bound) ==> IdsBelow(s[..a] + s[c..], bound)
  {
    if UniqueIds(s) {
      UniqueSubsequence(s, 0, a, c, |s|);
      assert s[0..a] + s[c..|s|] == s[..a] + s[c..];
    }
    var r := s[..a] + s[c..];
    if IdsBelow(s, bound) {
      forall k | 0 <= k < |r| ensures r[k].id < bound {
        if k >= a { assert r[k] == s[c + k - a]; }
      }
    }
  }

  /** Inserting lines whose ids are fresh and distinct. */
  lemma InsertFreshIds(s: seq<Line>, a: nat, news: seq<Line>, bound: nat)
    requires a <= |s|
    requires UniqueIds(s) && IdsBelow(s, bound)
    requires UniqueIds(news) && forall k :: 0 <= k < |news| ==> bound <= news[k].id < bound + |news|
    ensures UniqueIds(s[..a] + news + s[a..]) && IdsBelow(s[..a] + news + s[a..], bound + |news|)
  {
    var r := s[..a] + news + s[a..];
    forall i, j | 0 <= i < |r| && 0 <= j < |r| && i != j
      ensures r[i].id != r[j].id
    {
      var si := if i < a then i else i - |news|;
      var sj := if j < a then j else j - |news|;
      if a <= i < a + |news| {
        assert r[i] == news[i - a];
        if a <= j < a + |news| { assert r[j] == news[j - a]; }
        else { assert r[j] == s[sj]; }
      } else if a <= j < a + |news| {
        assert r[j] == news[j - a];
        assert r[i] == s[si];
      } else {
        assert r[i] == s[si] && r[j] == s[sj];
      }
    }
    forall k | 0 <= k < |r| ensures r[k].id < bound + |news| {
      if a <= k < a + |news| { assert r[k] == news[k - a]; }
      else if k >= a + |news| { assert r[k] == s[k - |news|]; }
    }
  }

  /** Rewriting line `a` (keeping its id) and inserting fresh lines behind it. */
  lemma ReplaceThenInsertIds(s: seq<Line>, a: nat, x: Line, news: seq<Line>, bound: nat)
    requires a < |s| && x.id == s[a].id
    requires UniqueIds(s) && IdsBelow(s, bound)
    requires UniqueIds(news) && forall k :: 0 <= k < |news| ==> bound <= news[k].id < bound + |news|
    ensures UniqueIds(s[..a] + [x] + news + s[a + 1..]) && IdsBelow(s[..a] + [x] + news + s[a + 1..], bound + |news|)
  {
    var t := s[..a] + [x] + s[a + 1..];
    ReplaceRangeIds(s, a, a + 1, x, bound);
    AroundElement(s[..a], x, s[a + 1..]);
    InsertFreshIds(t, a + 1, news, bound);
  }

  /** Rearranging lines keeps ids unique and bounded. */
  lemma PermutedIds(s: seq<Line>, r: seq<Line>, bound: nat)
    requires multiset(r) == multiset(s)
    ensures UniqueIds(s) ==> UniqueIds(r)
    ensures IdsBelow(s, bound) ==> IdsBelow(r, bound)
  {
    if UniqueIds(s) {
      UniqueUnderPermutation(s, r);
    }
    if IdsBelow(s, bound) {
      forall k | 0 <= k < |r| ensures r[k].id < bound {
        assert r[k] in multiset(s);
        var x :| 0 <= x < |s| && s[x] == r[k];
      }
    }
  }
}
