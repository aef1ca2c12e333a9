/**
 * What each editing operation of the outline editor does to the line
 * sequence, as functions of the lines and the caret. The editor's methods
 * (module Editor) perform these changes step by step and are proved to
 * produce exactly these values.
 */
module Edits {
  import opened JsString
  import opened Util
  import opened Outline

  function LineTexts(lines: seq<Line>): (r: seq<string>)
    ensures |r| == |lines|
    ensures forall k :: 0 <= k < |lines| ==> r[k] == lines[k].text
  {
    seq(|lines|, k requires 0 <= k < |lines| => lines[k].text)
  }

  lemma SliceMiddle<T>(a: seq<T>, b: seq<T>, c: seq<T>)
    ensures (a + b + c)[|a|..|a| + |b|] == b
    ensures (a + b + c)[..|a|] == a && (a + b + c)[|a| + |b|..] == c
  {
  }

  lemma FirstMidLast<T>(s: seq<T>)
    requires |s| >= 2
    ensures s == [s[0]] + s[1..|s| - 1] + [s[|s| - 1]]
  {
  }

  lemma LineTextsConcat(a: seq<Line>, b: seq<Line>)
    ensures LineTexts(a + b) == LineTexts(a) + LineTexts(b)
  {
  }

  lemma LineTextsNew(parts: seq<string>, indent: nat, firstId: nat)
    ensures LineTexts(NewTextLines(parts, indent, firstId)) == parts
  {
  }

  lemma LineTextsSlice(lines: seq<Line>, a: nat, b: nat)
    requires a <= b <= |lines|
    ensures LineTexts(lines[a..b]) == LineTexts(lines)[a..b]
  {
  }

  lemma LineTextsSnoc(lines: seq<Line>, a: nat, i: nat)
    requires a <= i < |lines|
    ensures LineTexts(lines[a..i + 1]) == LineTexts(lines[a..i]) + [lines[i].text]
  {
    assert lines[a..i + 1] == lines[a..i] + [lines[i]];
    LineTextsConcat(lines[a..i], [lines[i]]);
  }

  // ----- selection extraction and removal -----

  /** The texts of lines `a .. b-1`, gathered one line at a time. */
  function TextsBetween(lines: seq<Line>, a: nat, b: nat): (r: seq<string>)
    requires a <= b <= |lines|
    ensures |r| == b - a
    decreases b - a
  {
    if a == b then [] else TextsBetween(lines, a, b - 1) + [lines[b - 1].text]
  }

  /** The same texts, split off at the front. */
  lemma {:induction false} TextsBetweenCons(lines: seq<Line>, a: nat, b: nat)
    requires a < b <= |lines|
    ensures TextsBetween(lines, a, b) == [lines[a].text] + TextsBetween(lines, a + 1, b)
    decreases b - a
  {
    if a + 1 < b {
      TextsBetweenCons(lines, a, b - 1);
    }
  }

  /** `getSelectedText` of a present selection. */
  function SelectedText(lines: seq<Line>, sel: Selection): string
    requires PointIn(lines, sel.start) && PointIn(lines, sel.end)
  {
    var n := NormalizeSelection(sel);
    var s, e := n.start, n.end;
    if s.line == e.line then
      Slice(lines[s.line].text, s.ch, e.ch)
    else
      Join([SliceFrom(lines[s.line].text, s.ch)] + TextsBetween(lines, s.line + 1, e.line)
           + [Slice(lines[e.line].text, 0, e.ch)], '\n')
  }

  /** `collapseSelectionWithoutHistory` on the lines: the start line keeps its
      head and receives the end line's tail; the lines after it up to the end
      line are removed. */
  function CollapseRange(lines: seq<Line>, sel: Selection): (r: seq<Line>)
    requires PointIn(lines, sel.start) && PointIn(lines, sel.end)
    ensures var n := NormalizeSelection(sel);
            && |r| == |lines| - (n.end.line - n.start.line)
            && r[..n.start.line] == lines[..n.start.line]
            && r[n.start.line + 1..] == lines[n.end.line + 1..]
            && r[n.start.line] == lines[n.start.line].(text := r[n.start.line].text)
            && PointIn(r, n.start)
  {
    var n := NormalizeSelection(sel);
    var s, e := n.start, n.end;
    var first := lines[s.line];
    var joined := first.(text := Slice(first.text, 0, s.ch) + SliceFrom(lines[e.line].text, e.ch));
    if s.line == e.line then
      lines[s.line := joined]
    else
      lines[..s.line] + [joined] + lines[e.line + 1..]
  }

  /** The collapsed document in both branches is the joined line spliced
      over the selected lines; it keeps ids unique and under any bound. */
  lemma CollapseRangeIds(lines: seq<Line>, sel: Selection, bound: nat)
    requires PointIn(lines, sel.start) && PointIn(lines, sel.end)
    ensures var n := NormalizeSelection(sel);
            var r := CollapseRange(lines, sel);
            && r == lines[..n.start.line] + [r[n.start.line]] + lines[n.end.line + 1..]
            && (UniqueIds(lines) ==> UniqueIds(r))
            && (IdsBelow(lines, bound) ==> IdsBelow(r, bound))
  {
    var n := NormalizeSelection(sel);
    var r := CollapseRange(lines, sel);
    var a := n.start.line;
    assert r == r[..a] + [r[a]] + r[a + 1..];
    SpliceKeepsIds(lines, r, a, n.end.line + 1, bound);
  }

  /** Collapsing removes exactly the selected text: the lines the selection
      spans, joined with "\n", are the collapsed line's head, the selected
      text and the collapsed line's tail (`CollapseKeepsEnds`). */
  lemma CollapseRemovesSelectedText(lines: seq<Line>, sel: Selection)
    requires PointIn(lines, sel.start) && PointIn(lines, sel.end)
    ensures var n := NormalizeSelection(sel);
            var first, last := lines[n.start.line].text, lines[n.end.line].text;
            Join(TextsBetween(lines, n.start.line, n.end.line + 1), '\n')
            == Slice(first, 0, n.start.ch) + SelectedText(lines, sel) + SliceFrom(last, n.end.ch)
  {
    var n := NormalizeSelection(sel);
    var s, e := n.start, n.end;
    var first, last := lines[s.line].text, lines[e.line].text;
    if s.line == e.line {
      assert TextsBetween(lines, s.line, e.line + 1) == [first];
      SliceSplit(first, s.ch, e.ch);
    } else {
      var mid := TextsBetween(lines, s.line + 1, e.line);
      TextsBetweenCons(lines, s.line, e.line + 1);
      assert TextsBetween(lines, s.line + 1, e.line + 1) == mid + [last];
      assert TextsBetween(lines, s.line, e.line + 1) == [first] + mid + [last];
      SpanJoin(first, s.ch, mid, last, e.ch);
    }
  }

  /** A span over several lines: cut the first line at `a` and the last at
      `b`, the whole is the head, the span and the tail. */
  lemma SpanJoin(first: string, a: nat, mid: seq<string>, last: string, b: nat)
    ensures Join([first] + mid + [last], '\n')
            == Slice(first, 0, a) + Join([SliceFrom(first, a)] + mid + [Slice(last, 0, b)], '\n') + SliceFrom(last, b)
  {
    SliceSplit(first, a, a);
    SliceSplit(last, 0, b);
    assert first == Slice(first, 0, a) + SliceFrom(first, a);
    assert last == Slice(last, 0, b) + SliceFrom(last, b);
    JoinFrame(Slice(first, 0, a), SliceFrom(first, a), mid, Slice(last, 0, b), SliceFrom(last, b), '\n');
  }

  /** The collapsed line is the start line's head followed by the end
      line's tail. */
  lemma CollapseKeepsEnds(lines: seq<Line>, sel: Selection)
    requires PointIn(lines, sel.start) && PointIn(lines, sel.end)
    ensures var n := NormalizeSelection(sel);
            CollapseRange(lines, sel)[n.start.line].text
            == Slice(lines[n.start.line].text, 0, n.start.ch) + SliceFrom(lines[n.end.line].text, n.end.ch)
  {
  }

  // ----- inserting text -----

  function NewTextLines(parts: seq<string>, indent: nat, firstId: nat): (r: seq<Line>)
    ensures |r| == |parts|
    ensures forall k :: 0 <= k < |parts| ==> r[k] == Line(firstId + k, Text, parts[k], indent, false)
  {
    seq(|parts|, k requires 0 <= k < |parts| => Line(firstId + k, Text, parts[k], indent, false))
  }

  /** One more piece gives one more line, with the next id. */
  lemma NewTextLinesSnoc(parts: seq<string>, i: nat, indent: nat, firstId: nat)
    requires i < |parts|
    ensures NewTextLines(parts[..i + 1], indent, firstId)
            == NewTextLines(parts[..i], indent, firstId) + [Line(firstId + i, Text, parts[i], indent, false)]
  {
  }

  /** The pieces after the first one, with `tail` appended to the last. */
  function RestWithTail(parts: seq<string>, tail: string): (r: seq<string>)
    requires |parts| >= 2
    ensures |r| == |parts| - 1
    ensures forall k :: 0 <= k < |r| - 1 ==> r[k] == parts[k + 1]
    ensures r[|r| - 1] == parts[|parts| - 1] + tail
  {
    parts[1..|parts| - 1] + [parts[|parts| - 1] + tail]
  }

  /** Where the text typed in front of (caret at 0) or behind an image line goes. */
  function ImageInsertIndex(p: Point): nat
  {
    if p.ch == 0 then p.line else p.line + 1
  }

  /** What a text line becomes when `text` is typed between `head` and
      `tail` (the line's text cut at the caret): the line itself takes the
      head and the first "\n"-piece; every further piece becomes a fresh line
      with the line's indent, the last one carrying the tail. */
  function TypedBlock(l: Line, head: string, tail: string, text: string, firstId: nat): seq<Line>
  {
    var parts := Split(text, '\n');
    if |parts| == 1 then
      [l.(text := head + text + tail)]
    else
      PiecesBlock(l, head, tail, parts, firstId)
  }

  /** The typed block for two or more pieces. */
  function PiecesBlock(l: Line, head: string, tail: string, parts: seq<string>, firstId: nat): seq<Line>
    requires |parts| >= 2
  {
    [l.(text := head + parts[0])] + NewTextLines(RestWithTail(parts, tail), l.indent, firstId)
  }

  /** Where the caret lands inside the typed block, for a caret at column
      `ch`: the block's last line, right behind the last piece. */
  function TypedCaret(ch: nat, text: string): (c: Point)
  {
    var parts := Split(text, '\n');
    if |parts| == 1 then Point(0, ch + |text|)
    else Point(|parts| - 1, |parts[|parts| - 1]|)
  }

  /** `insertText` on the lines, at caret `p`, for a non-empty `text`. On a
      text line the line is replaced by its typed block; on an image line
      every piece (after "\r\n" normalisation) becomes a new text line before
      or after the image. */
  function InsertTextLines(lines: seq<Line>, p: Point, text: string, firstId: nat): seq<Line>
    requires PointIn(lines, p)
  {
    var l := lines[p.line];
    if l.kind.Image? then
      var at := ImageInsertIndex(p);
      lines[..at] + NewTextLines(Split(NormalizeNewlines(text), '\n'), l.indent, firstId) + lines[at..]
    else
      lines[..p.line] + TypedBlock(l, Slice(l.text, 0, p.ch), SliceFrom(l.text, p.ch), text, firstId) + lines[p.line + 1..]
  }

  /** Where `insertText` leaves the caret. */
  function InsertTextCaret(lines: seq<Line>, p: Point, text: string): Point
    requires PointIn(lines, p)
  {
    var l := lines[p.line];
    if l.kind.Image? then
      var parts := Split(NormalizeNewlines(text), '\n');
      Point(ImageInsertIndex(p) + |parts| - 1, |parts[|parts| - 1]|)
    else
      var c := TypedCaret(p.ch, text);
      Point(p.line + c.line, c.ch)
  }

  /** The typed block, line by line: one line more than there are newlines in
      the text; the first is the old line with new text, the others fresh
      text lines with the line's indent and consecutive ids. */
  lemma TypedBlockShape(l: Line, head: string, tail: string, text: string, firstId: nat)
    ensures var b := TypedBlock(l, head, tail, text, firstId);
            && |b| == Count(text, '\n') + 1
            && b[0] == l.(text := b[0].text)
            && forall j :: 1 <= j < |b| ==> b[j] == Line(firstId + j - 1, Text, b[j].text, l.indent, false)
  {
    SplitCount(text, '\n');
  }

  /** The block has one line more than the text has newlines, and the caret
      lands within its last line. */
  lemma TypedCaretInBlock(l: Line, head: string, tail: string, text: string, firstId: nat)
    ensures var b := TypedBlock(l, head, tail, text, firstId);
            var c := TypedCaret(|head|, text);
            && |b| == Count(text, '\n') + 1
            && c.line == |b| - 1 && c.ch <= |b[c.line].text|
  {
    SplitCount(text, '\n');
    TypedBlockSplices(l, head, tail, text, firstId);
  }

  /** Typing splices the text in: the typed block, joined with "\n", is the
      head, the text and the tail; the caret lands on the block's last line,
      with the head and everything typed in front of it and the tail behind
      it. */
  lemma TypedBlockSplices(l: Line, head: string, tail: string, text: string, firstId: nat)
    ensures var b := TypedBlock(l, head, tail, text, firstId);
            var c := TypedCaret(|head|, text);
            && Join(LineTexts(b), '\n') == head + text + tail
            && c.line == |b| - 1 && c.ch <= |b[c.line].text|
            && Join(LineTexts(b[..c.line]) + [b[c.line].text[..c.ch]], '\n') == head + text
            && b[c.line].text[c.ch..] == tail
  {
    JoinSplit(text, '\n');
    var parts := Split(text, '\n');
    if |parts| == 1 {
      TypedOnePiece(l, head, tail, text, firstId);
    } else {
      PiecesSplice(l, head, tail, parts, firstId);
    }
  }

  lemma TypedOnePiece(l: Line, head: string, tail: string, text: string, firstId: nat)
    requires |Split(text, '\n')| == 1
    ensures var b := TypedBlock(l, head, tail, text, firstId);
            && b == [l.(text := head + text + tail)]
            && Join(LineTexts(b[..0]) + [b[0].text[..|head| + |text|]], '\n') == head + text
            && b[0].text[|head| + |text|..] == tail
  {
    var s := head + text + tail;
    assert s[..|head| + |text|] == head + text;
    assert s[|head| + |text|..] == tail;
  }

  /** The block for two or more pieces, joined with "\n", is the head, the
      joined pieces and the tail; its last line holds the last piece and the
      tail. */
  lemma PiecesSplice(l: Line, head: string, tail: string, parts: seq<string>, firstId: nat)
    requires |parts| >= 2
    ensures var b := PiecesBlock(l, head, tail, parts, firstId);
            var last := parts[|parts| - 1];
            && |b| == |parts|
            && Join(LineTexts(b), '\n') == head + Join(parts, '\n') + tail
            && |last| <= |b[|b| - 1].text|
            && Join(LineTexts(b[..|b| - 1]) + [b[|b| - 1].text[..|last|]], '\n') == head + Join(parts, '\n')
            && b[|b| - 1].text[|last|..] == tail
  {
    var b := PiecesBlock(l, head, tail, parts, firstId);
    PiecesTexts(l, head, tail, parts, firstId);
    JoinPieces(LineTexts(b), head, parts, tail);
    BlockCaretView(b, head, parts, tail);
  }

  lemma PiecesTexts(l: Line, head: string, tail: string, parts: seq<string>, firstId: nat)
    requires |parts| >= 2
    ensures var b := PiecesBlock(l, head, tail, parts, firstId);
            && |b| == |parts|
            && LineTexts(b) == [head + parts[0]] + parts[1..|parts| - 1] + [parts[|parts| - 1] + tail]
  {
    var rest := RestWithTail(parts, tail);
    var news := NewTextLines(rest, l.indent, firstId);
    var first := l.(text := head + parts[0]);
    LineTextsConcat([first], news);
    LineTextsNew(rest, l.indent, firstId);
    assert LineTexts([first]) == [head + parts[0]];
    assert rest == parts[1..|parts| - 1] + [parts[|parts| - 1] + tail];
  }

  /** Joining a block whose texts are the pieces framed by a head and a tail. */
  lemma JoinPieces(texts: seq<string>, head: string, parts: seq<string>, tail: string)
    requires |parts| >= 2
    requires texts == [head + parts[0]] + parts[1..|parts| - 1] + [parts[|parts| - 1] + tail]
    ensures Join(texts, '\n') == head + Join(parts, '\n') + tail
  {
    FirstMidLast(parts);
    JoinFrame(head, parts[0], parts[1..|parts| - 1], parts[|parts| - 1], tail, '\n');
  }

  /** The view from the end of the last inserted piece, on the block of lines
      the insertion produced. */
  lemma BlockCaretView(block: seq<Line>, head: string, parts: seq<string>, tail: string)
    requires |parts| >= 2 && |block| == |parts|
    requires LineTexts(block) == [head + parts[0]] + parts[1..|parts| - 1] + [parts[|parts| - 1] + tail]
    ensures var n, last := |parts|, parts[|parts| - 1];
            && |last| <= |block[n - 1].text|
            && Join(LineTexts(block[..n - 1]) + [block[n - 1].text[..|last|]], '\n') == head + Join(parts, '\n')
            && block[n - 1].text[|last|..] == tail
  {
    var n, last := |parts|, parts[|parts| - 1];
    var mid := parts[1..n - 1];
    var texts := LineTexts(block);
    assert block[n - 1].text == texts[n - 1] == last + tail;
    LineTextsSlice(block, 0, n - 1);
    assert LineTexts(block[..n - 1]) == texts[..n - 1] == [head + parts[0]] + mid;
    assert block[n - 1].text[..|last|] == last + "";
    FirstMidLast(parts);
    JoinFrame(head, parts[0], mid, last, "", '\n');
    assert head + Join(parts, '\n') + "" == head + Join(parts, '\n');
  }

  /** In the whole document: on a text line the typed block replaces the
      line and the caret is on it; on an image line the new lines go in front
      of (caret at 0) or behind the image, which is kept, and the caret is
      behind the last of them. */
  lemma InsertTextPlacesCaret(lines: seq<Line>, p: Point, text: string, firstId: nat)
    requires PointIn(lines, p)
    ensures var r := InsertTextLines(lines, p, text, firstId);
            var c := InsertTextCaret(lines, p, text);
            && PointIn(r, c)
            && (lines[p.line].kind.Text? ==>
                  && |r| == |lines| + Count(text, '\n')
                  && c.line == p.line + Count(text, '\n'))
            && (lines[p.line].kind.Image? ==>
                  && |r| == |lines| + Count(NormalizeNewlines(text), '\n') + 1
                  && c.line == ImageInsertIndex(p) + Count(NormalizeNewlines(text), '\n')
                  && (if p.ch == 0 then r[c.line + 1] == lines[p.line] else r[p.line] == lines[p.line]))
  {
    if lines[p.line].kind.Text? {
      CaretOnTypedLine(lines, p, text, firstId);
    } else {
      CaretBesideImage(lines, p, text, firstId);
    }
  }

  lemma CaretOnTypedLine(lines: seq<Line>, p: Point, text: string, firstId: nat)
    requires PointIn(lines, p) && lines[p.line].kind.Text?
    ensures var r := InsertTextLines(lines, p, text, firstId);
            var c := InsertTextCaret(lines, p, text);
            && PointIn(r, c)
            && |r| == |lines| + Count(text, '\n')
            && c.line == p.line + Count(text, '\n')
  {
    var l := lines[p.line];
    var head, tail := Slice(l.text, 0, p.ch), SliceFrom(l.text, p.ch);
    var b := TypedBlock(l, head, tail, text, firstId);
    TypedCaretInBlock(l, head, tail, text, firstId);
    ReplaceByBlock(lines, p.line, b, TypedCaret(p.ch, text).line);
  }

  lemma CaretBesideImage(lines: seq<Line>, p: Point, text: string, firstId: nat)
    requires PointIn(lines, p) && lines[p.line].kind.Image?
    ensures var r := InsertTextLines(lines, p, text, firstId);
            var c := InsertTextCaret(lines, p, text);
            && PointIn(r, c)
            && |r| == |lines| + Count(NormalizeNewlines(text), '\n') + 1
            && c.line == ImageInsertIndex(p) + Count(NormalizeNewlines(text), '\n')
            && (if p.ch == 0 then r[c.line + 1] == lines[p.line] else r[p.line] == lines[p.line])
  {
    var l := lines[p.line];
    var norm := NormalizeNewlines(text);
    var parts := Split(norm, '\n');
    SplitCount(norm, '\n');
    NewLinesCaret(lines, ImageInsertIndex(p), parts, l.indent, firstId);
    if p.ch > 0 {
      assert p.line < ImageInsertIndex(p);
    }
  }

  /** New lines for the pieces inserted in front of element `at`: the caret
      behind the last piece is in the document, the element at `at` follows
      the new lines and the ones in front of `at` stay. */
  lemma NewLinesCaret(lines: seq<Line>, at: nat, parts: seq<string>, indent: nat, firstId: nat)
    requires at <= |lines| && |parts| >= 1
    ensures var r := lines[..at] + NewTextLines(parts, indent, firstId) + lines[at..];
            && |r| == |lines| + |parts|
            && PointIn(r, Point(at + |parts| - 1, |parts[|parts| - 1]|))
            && (at < |lines| ==> r[at + |parts|] == lines[at])
            && (forall k :: 0 <= k < at ==> r[k] == lines[k])
  {
    var news := NewTextLines(parts, indent, firstId);
    InsertBlock(lines, at, news);
    SpliceAt(lines[..at], news, lines[at..], |parts| - 1);
    assert news[|parts| - 1].text == parts[|parts| - 1];
    if at < |lines| {
      SpliceAt(lines[..at], news, lines[at..], |parts|);
      assert lines[at..][0] == lines[at];
    }
  }

  /** Replacing element `a` by a block: the block's element `j` ends up at
      `a + j`. */
  lemma ReplaceByBlock<T>(s: seq<T>, a: nat, b: seq<T>, j: nat)
    requires a < |s| && j < |b|
    ensures var r := s[..a] + b + s[a + 1..];
            |r| == |s| - 1 + |b| && r[a + j] == b[j]
  {
  }

  /** Inserting a block in front of element `at`: the elements in front of
      `at` stay where they are. */
  lemma InsertBlock<T>(s: seq<T>, at: nat, b: seq<T>)
    requires at <= |s|
    ensures var r := s[..at] + b + s[at..];
            |r| == |s| + |b| && forall k :: 0 <= k < at ==> r[k] == s[k]
  {
  }

  /** An element of the middle part of a concatenation, by its index there. */
  lemma SpliceAt<T>(a: seq<T>, b: seq<T>, c: seq<T>, j: nat)
    requires j < |b| + |c|
    ensures (a + b + c)[|a| + j] == (b + c)[j]
  {
  }

  /** Typing keeps line ids unique: the rewritten line keeps its id and the
      new lines take the next fresh ids. */
  lemma InsertTextIds(lines: seq<Line>, p: Point, text: string, firstId: nat)
    requires PointIn(lines, p) && UniqueIds(lines) && IdsBelow(lines, firstId)
    ensures var r := InsertTextLines(lines, p, text, firstId);
            |r| >= |lines| && UniqueIds(r) && IdsBelow(r, firstId + (|r| - |lines|))
  {
    var l := lines[p.line];
    if l.kind.Image? {
      var at := ImageInsertIndex(p);
      InsertFreshIds(lines, at, NewTextLines(Split(NormalizeNewlines(text), '\n'), l.indent, firstId), firstId);
    } else {
      var head, tail := Slice(l.text, 0, p.ch), SliceFrom(l.text, p.ch);
      var b := TypedBlock(l, head, tail, text, firstId);
      TypedBlockShape(l, head, tail, text, firstId);
      ReplaceByBlockIds(lines, p.line, b, firstId);
    }
  }

  /** Replacing a line by a block that starts with a line of the same id and
      goes on with fresh distinct ids. */
  lemma ReplaceByBlockIds(s: seq<Line>, a: nat, b: seq<Line>, bound: nat)
    requires a < |s| && |b| >= 1 && b[0].id == s[a].id
    requires UniqueIds(s) && IdsBelow(s, bound)
    requires forall j :: 1 <= j < |b| ==> b[j].id == bound + j - 1
    ensures UniqueIds(s[..a] + b + s[a + 1..]) && IdsBelow(s[..a] + b + s[a + 1..], bound + |b| - 1)
  {
    var news := b[1..];
    assert UniqueIds(news) by {
      forall i, j | 0 <= i < |news| && 0 <= j < |news| && i != j ensures news[i].id != news[j].id {
        assert news[i] == b[i + 1] && news[j] == b[j + 1];
      }
    }
    forall k | 0 <= k < |news| ensures bound <= news[k].id < bound + |news| {
      assert news[k] == b[k + 1];
    }
    ReplaceThenInsertIds(s, a, b[0], news, bound);
    assert [b[0]] + news == b;
    assert s[..a] + [b[0]] + news + s[a + 1..] == s[..a] + b + s[a + 1..];
  }

  /** The lines typed beside an image, joined with "\n", are the normalized
      text; they are text lines with the image's indent. */
  lemma TypedBesideImage(lines: seq<Line>, p: Point, text: string, firstId: nat)
    requires PointIn(lines, p) && lines[p.line].kind.Image?
    ensures var news := NewTextLines(Split(NormalizeNewlines(text), '\n'), lines[p.line].indent, firstId);
            && Join(LineTexts(news), '\n') == NormalizeNewlines(text)
            && forall j :: 0 <= j < |news| ==> news[j].kind.Text? && news[j].indent == lines[p.line].indent
  {
    var norm := NormalizeNewlines(text);
    JoinSplit(norm, '\n');
    LineTextsNew(Split(norm, '\n'), lines[p.line].indent, firstId);
  }

  // ----- image lines -----

  /** A freshly created image line. */
  function ImageLine(id: nat, data: ImageData, indent: nat): Line
  {
    Line(id, Image(data), "", indent, false)
  }

  /** How many lines `insertImageLine` creates at caret `p`: two when a text
      line is cut in the middle (the tail line and the image line), else one. */
  function ImageIdCount(lines: seq<Line>, p: Point): nat
    requires PointIn(lines, p)
  {
    var l := lines[p.line];
    if l.kind.Text? && 0 < |l.text| && p.ch < |l.text| then 2 else 1
  }

  /** `insertImageLine` on the lines, at caret `p`, with ids from `firstId` in
      creation order (the tail line is created before the image line). An
      empty text line is replaced by the image; a text line is cut at the
      caret and the image goes between head and tail; next to an image line
      the new image goes in front (caret at 0) or behind. */
  function ImageLines(lines: seq<Line>, p: Point, data: ImageData, firstId: nat): seq<Line>
    requires PointIn(lines, p)
  {
    var l := lines[p.line];
    if l.kind.Image? then
      var at := ImageInsertIndex(p);
      lines[..at] + [ImageLine(firstId, data, l.indent)] + lines[at..]
    else
      var head, tail := Slice(l.text, 0, p.ch), SliceFrom(l.text, p.ch);
      if head == "" && tail == "" then
        lines[p.line := ImageLine(firstId, data, l.indent)]
      else if tail == "" then
        lines[..p.line] + [l.(text := head), ImageLine(firstId, data, l.indent)] + lines[p.line + 1..]
      else
        lines[..p.line] + [l.(text := head), ImageLine(firstId + 1, data, l.indent), Line(firstId, Text, tail, l.indent, false)]
        + lines[p.line + 1..]
  }

  /** Index of the new image line. */
  function ImageIndex(lines: seq<Line>, p: Point): nat
    requires PointIn(lines, p)
  {
    var l := lines[p.line];
    if l.kind.Image? then ImageInsertIndex(p)
    else if |l.text| == 0 then p.line
    else p.line + 1
  }

  /** Where `insertImageLine` leaves the caret: behind the image, or at the
      start of the tail line when there is one. */
  function ImageCaret(lines: seq<Line>, p: Point): Point
    requires PointIn(lines, p)
  {
    var at := ImageIndex(lines, p);
    if ImageIdCount(lines, p) == 2 then Point(at + 1, 0) else Point(at, 1)
  }

  /** The image line sits at `ImageIndex` with the caret line's indent, the
      document grows by the new lines less a replaced empty line, and the
      caret lands inside it. */
  lemma ImagePlacement(lines: seq<Line>, p: Point, data: ImageData, firstId: nat)
    requires PointIn(lines, p)
    ensures var r := ImageLines(lines, p, data, firstId);
            var at := ImageIndex(lines, p);
            var l := lines[p.line];
            && at < |r| && r[at] == ImageLine(r[at].id, data, l.indent)
            && |r| == |lines| + ImageIdCount(lines, p) - (if l.kind.Text? && |l.text| == 0 then 1 else 0)
            && PointIn(r, ImageCaret(lines, p))
  {
  }

  /** Taking the image line out again gives the old lines back, except that
      an empty text line is gone and a cut text line is split into head and
      tail. */
  lemma ImageRemoval(lines: seq<Line>, p: Point, data: ImageData, firstId: nat)
    requires PointIn(lines, p)
    ensures var r := ImageLines(lines, p, data, firstId);
            var at := ImageIndex(lines, p);
            var l := lines[p.line];
            && at < |r|
            && (l.kind.Image? ==> RemoveLine(r, at) == lines)
            && (l.kind.Text? && |l.text| == 0 ==> RemoveLine(r, at) == RemoveLine(lines, p.line))
            && (l.kind.Text? && |l.text| > 0 ==>
                  && RemoveLine(r, at)[..p.line] == lines[..p.line]
                  && RemoveLine(r, at)[p.line] == l.(text := l.text[..p.ch])
                  && (p.ch == |l.text| ==> RemoveLine(r, at)[p.line + 1..] == lines[p.line + 1..])
                  && (p.ch < |l.text| ==>
                        RemoveLine(r, at)[p.line + 1..] == [Line(firstId, Text, l.text[p.ch..], l.indent, false)] + lines[p.line + 1..]))
  {
    var r := ImageLines(lines, p, data, firstId);
    var at := ImageIndex(lines, p);
    var l := lines[p.line];
    if l.kind.Image? {
      assert RemoveLine(r, at) == lines[..at] + lines[at..];
      assert lines[..at] + lines[at..] == lines;
    } else if |l.text| > 0 {
      assert Slice(l.text, 0, p.ch) == l.text[..p.ch] && SliceFrom(l.text, p.ch) == l.text[p.ch..];
      if p.ch == |l.text| {
        assert RemoveLine(r, at) == lines[..p.line] + [l.(text := l.text[..p.ch])] + lines[p.line + 1..];
      } else {
        assert RemoveLine(r, at) == lines[..p.line] + [l.(text := l.text[..p.ch])]
               + ([Line(firstId, Text, l.text[p.ch..], l.indent, false)] + lines[p.line + 1..]);
      }
    }
  }

  /** Inserting an image keeps line ids unique: the new lines take the next
      `ImageIdCount` ids. */
  lemma ImageLinesIds(lines: seq<Line>, p: Point, data: ImageData, firstId: nat)
    requires PointIn(lines, p) && UniqueIds(lines) && IdsBelow(lines, firstId)
    ensures var r := ImageLines(lines, p, data, firstId);
            UniqueIds(r) && IdsBelow(r, firstId + ImageIdCount(lines, p))
  {
    var r := ImageLines(lines, p, data, firstId);
    var l := lines[p.line];
    var i := p.line;
    var n := ImageIdCount(lines, p);
    if l.kind.Image? {
      InsertFreshIds(lines, ImageInsertIndex(p), [ImageLine(firstId, data, l.indent)], firstId);
    } else if |l.text| == 0 {
      RemoveRangeIds(lines, i, i + 1, firstId);
      var s := lines[..i] + lines[i + 1..];
      InsertFreshIds(s, i, [ImageLine(firstId, data, l.indent)], firstId);
      assert s[..i] + [ImageLine(firstId, data, l.indent)] + s[i..] == r;
    } else {
      CutLineIds(lines, p, data, firstId);
    }
  }

  lemma CutLineIds(lines: seq<Line>, p: Point, data: ImageData, firstId: nat)
    requires PointIn(lines, p) && UniqueIds(lines) && IdsBelow(lines, firstId)
    requires lines[p.line].kind.Text? && |lines[p.line].text| > 0
    ensures var r := ImageLines(lines, p, data, firstId);
            UniqueIds(r) && IdsBelow(r, firstId + ImageIdCount(lines, p))
  {
    var l := lines[p.line];
    if p.ch == |l.text| {
      CutAtEndIds(lines, p, data, firstId);
    } else {
      CutInsideIds(lines, p, data, firstId);
    }
  }

  /** The caret at the end of a non-empty text line: the image goes below it. */
  lemma CutAtEndIds(lines: seq<Line>, p: Point, data: ImageData, firstId: nat)
    requires PointIn(lines, p) && UniqueIds(lines) && IdsBelow(lines, firstId)
    requires lines[p.line].kind.Text? && |lines[p.line].text| > 0 && p.ch == |lines[p.line].text|
    ensures var r := ImageLines(lines, p, data, firstId);
            UniqueIds(r) && IdsBelow(r, firstId + ImageIdCount(lines, p))
  {
    var l := lines[p.line];
    var head := Slice(l.text, 0, p.ch);
    var news := [ImageLine(firstId, data, l.indent)];
    CutAndInsertIds(lines, p.line, l.(text := head), news, firstId);
    assert [l.(text := head)] + news == [l.(text := head), ImageLine(firstId, data, l.indent)];
  }

  /** The caret inside a text line: the image and then the tail go below the
      head. */
  lemma CutInsideIds(lines: seq<Line>, p: Point, data: ImageData, firstId: nat)
    requires PointIn(lines, p) && UniqueIds(lines) && IdsBelow(lines, firstId)
    requires lines[p.line].kind.Text? && p.ch < |lines[p.line].text|
    ensures var r := ImageLines(lines, p, data, firstId);
            UniqueIds(r) && IdsBelow(r, firstId + ImageIdCount(lines, p))
  {
    var l := lines[p.line];
    var head, tail := Slice(l.text, 0, p.ch), SliceFrom(l.text, p.ch);
    var news := [ImageLine(firstId + 1, data, l.indent), Line(firstId, Text, tail, l.indent, false)];
    CutAndInsertIds(lines, p.line, l.(text := head), news, firstId);
    assert [l.(text := head)] + news == [l.(text := head), ImageLine(firstId + 1, data, l.indent), Line(firstId, Text, tail, l.indent, false)];
  }

  /** Line `i` replaced by a line with its id, followed by fresh lines. */
  lemma CutAndInsertIds(lines: seq<Line>, i: nat, x: Line, news: seq<Line>, firstId: nat)
    requires i < |lines| && x.id == lines[i].id && UniqueIds(lines) && IdsBelow(lines, firstId)
    requires UniqueIds(news) && forall k :: 0 <= k < |news| ==> firstId <= news[k].id < firstId + |news|
    ensures UniqueIds(lines[..i] + ([x] + news) + lines[i + 1..])
    ensures IdsBelow(lines[..i] + ([x] + news) + lines[i + 1..], firstId + |news|)
  {
    var s := lines[i := x];
    SameIds(lines, s, firstId);
    InsertFreshIds(s, i + 1, news, firstId);
    assert s[..i + 1] + news + s[i + 1..] == lines[..i] + ([x] + news) + lines[i + 1..] by {
      assert s[..i + 1] == lines[..i] + [x];
      assert s[i + 1..] == lines[i + 1..];
    }
  }


  // ----- line break -----

  /** `insertLineBreak` on the lines. */
  function LineBreakLines(lines: seq<Line>, p: Point, indentOverride: Option<nat>, freshId: nat): (r: seq<Line>)
    requires PointIn(lines, p)
    ensures |r| == |lines| + 1
  {
    var l := lines[p.line];
    var newIndent := if indentOverride.Some? then indentOverride.value else l.indent;
    if l.kind.Image? then
      var at := ImageInsertIndex(p);
      lines[..at] + [Line(freshId, Text, "", newIndent, false)] + lines[at..]
    else
      lines[..p.line] + [l.(text := Slice(l.text, 0, p.ch)), Line(freshId, Text, SliceFrom(l.text, p.ch), newIndent, false)]
      + lines[p.line + 1..]
  }

  function LineBreakCaret(lines: seq<Line>, p: Point): Point
    requires PointIn(lines, p)
  {
    if lines[p.line].kind.Image? then Point(ImageInsertIndex(p), 0) else Point(p.line + 1, 0)
  }

  /** A line break adds exactly one line, the caret goes to the start of
      that new line, which has the fresh id and gets the override indent or
      the line's own. */
  lemma LineBreakCaretIn(lines: seq<Line>, p: Point, indentOverride: Option<nat>, freshId: nat)
    requires PointIn(lines, p)
    ensures var r := LineBreakLines(lines, p, indentOverride, freshId);
            var c := LineBreakCaret(lines, p);
            && PointIn(r, c) && c.ch == 0
            && r[c.line] == Line(freshId, Text, r[c.line].text,
                                 if indentOverride.Some? then indentOverride.value else lines[p.line].indent, false)
  {
  }

  /** On a text line the head stays, the tail moves to the new line and
      the two together are the old text; on an image line the new line is
      empty and the lines around it stay. */
  lemma LineBreakSplits(lines: seq<Line>, p: Point, indentOverride: Option<nat>, freshId: nat)
    requires PointIn(lines, p)
    ensures var r := LineBreakLines(lines, p, indentOverride, freshId);
            var c := LineBreakCaret(lines, p);
            var l := lines[p.line];
            && (l.kind.Text? ==>
                  && r[..p.line] == lines[..p.line] && r[p.line + 2..] == lines[p.line + 1..]
                  && r[p.line] == l.(text := l.text[..p.ch])
                  && r[p.line + 1].text == l.text[p.ch..]
                  && r[p.line].text + r[p.line + 1].text == l.text)
            && (l.kind.Image? ==> r[c.line].text == "" && r[..c.line] == lines[..c.line] && r[c.line + 1..] == lines[c.line..])
  {
  }

  /** A line break keeps line ids unique: the new line takes the fresh id. */
  lemma LineBreakIds(lines: seq<Line>, p: Point, indentOverride: Option<nat>, freshId: nat)
    requires PointIn(lines, p) && UniqueIds(lines) && IdsBelow(lines, freshId)
    ensures var r := LineBreakLines(lines, p, indentOverride, freshId);
            UniqueIds(r) && IdsBelow(r, freshId + 1)
  {
    var l := lines[p.line];
    var newIndent := if indentOverride.Some? then indentOverride.value else l.indent;
    if l.kind.Image? {
      InsertFreshIds(lines, ImageInsertIndex(p), [Line(freshId, Text, "", newIndent, false)], freshId);
    } else {
      PairIds(lines, p.line, l.(text := Slice(l.text, 0, p.ch)), Line(freshId, Text, SliceFrom(l.text, p.ch), newIndent, false));
    }
  }

  /** Line `i` replaced by a line with its id and a line with the fresh id. */
  lemma PairIds(lines: seq<Line>, i: nat, x: Line, y: Line)
    requires i < |lines| && x.id == lines[i].id && UniqueIds(lines) && IdsBelow(lines, y.id)
    ensures UniqueIds(lines[..i] + [x, y] + lines[i + 1..]) && IdsBelow(lines[..i] + [x, y] + lines[i + 1..], y.id + 1)
  {
    ReplaceByBlockIds(lines, i, [x, y], y.id);
  }

  // ----- brackets -----

  /** `insertBracketPair` on a text line: `inner` wrapped in "[" "]" at the caret. */
  function BracketLines(lines: seq<Line>, p: Point, inner: string): (r: seq<Line>)
    requires PointIn(lines, p) && lines[p.line].kind.Text?
    ensures |r| == |lines| && r[p.line].text == lines[p.line].text[..p.ch] + "[" + inner + "]" + lines[p.line].text[p.ch..]
    ensures forall k :: 0 <= k < |lines| && k != p.line ==> r[k] == lines[k]
    ensures r[p.line] == lines[p.line].(text := r[p.line].text)
  {
    var l := lines[p.line];
    lines[p.line := l.(text := Slice(l.text, 0, p.ch) + "[" + inner + "]" + SliceFrom(l.text, p.ch))]
  }

  // ----- backspace and delete -----

  /** Remove line `i`. */
  function RemoveLine(lines: seq<Line>, i: nat): (r: seq<Line>)
    requires i < |lines|
    ensures |r| == |lines| - 1 && r[..i] == lines[..i] && r[i..] == lines[i + 1..]
  {
    lines[..i] + lines[i + 1..]
  }

  /** Delete the unit before the caret on its line. */
  function DeleteBefore(lines: seq<Line>, p: Point): (r: seq<Line>)
    requires PointIn(lines, p) && lines[p.line].kind.Text? && p.ch > 0
    ensures |r| == |lines| && forall k :: 0 <= k < |lines| && k != p.line ==> r[k] == lines[k]
    ensures r[p.line] == lines[p.line].(text := lines[p.line].text[..p.ch - 1] + lines[p.line].text[p.ch..])
    ensures |r[p.line].text| == |lines[p.line].text| - 1
  {
    var l := lines[p.line];
    lines[p.line := l.(text := Slice(l.text, 0, p.ch - 1) + SliceFrom(l.text, p.ch))]
  }

  /** Delete the unit after the caret on its line. */
  function DeleteAfter(lines: seq<Line>, p: Point): (r: seq<Line>)
    requires PointIn(lines, p) && lines[p.line].kind.Text? && p.ch < |lines[p.line].text|
    ensures |r| == |lines| && forall k :: 0 <= k < |lines| && k != p.line ==> r[k] == lines[k]
    ensures r[p.line] == lines[p.line].(text := lines[p.line].text[..p.ch] + lines[p.line].text[p.ch + 1..])
    ensures |r[p.line].text| == |lines[p.line].text| - 1
  {
    var l := lines[p.line];
    lines[p.line := l.(text := Slice(l.text, 0, p.ch) + SliceFrom(l.text, p.ch + 1))]
  }

  /** Backspace at the start of line `i`: the previous line (when it is a
      text line) receives the text of line `i`, and line `i` is removed. */
  function MergeWithPrevious(lines: seq<Line>, i: nat): (r: seq<Line>)
    requires 0 < i < |lines|
  {
    var prev := lines[i - 1];
    var merged := if prev.kind.Text? then prev.(text := prev.text + lines[i].text) else prev;
    lines[..i - 1] + [merged] + lines[i + 1..]
  }

  /** The backspace merge removes exactly one line, whatever the indents of
      the following lines, and the previous text line ends with the merged
      line's text from its old length on. */
  lemma MergeWithPreviousRemovesOneLine(lines: seq<Line>, i: nat)
    requires 0 < i < |lines| && lines[i - 1].kind.Text?
    ensures var r := MergeWithPrevious(lines, i);
            && |r| == |lines| - 1
            && r[..i - 1] == lines[..i - 1] && r[i..] == lines[i + 1..]
            && r[i - 1] == lines[i - 1].(text := lines[i - 1].text + lines[i].text)
            && r[i - 1].text[..LineLength(lines[i - 1])] == lines[i - 1].text
            && r[i - 1].text[LineLength(lines[i - 1])..] == lines[i].text
  {
  }

  /** Delete at the end of line `i`: the next line's indent is first clamped
      to line `i`'s, its text is appended to line `i`, and the next line's
      block, measured after the clamp, is removed. */
  function MergeNextBlock(lines: seq<Line>, i: nat): (r: seq<Line>)
    requires i + 1 < |lines|
  {
    var l, next := lines[i], lines[i + 1];
    lines[..i] + [l.(text := l.text + next.text)] + lines[DescendantEnd(ClampNext(lines, i), i + 1)..]
  }

  /** The lines after the clamp of the next line's indent. */
  function ClampNext(lines: seq<Line>, i: nat): (r: seq<Line>)
    requires i + 1 < |lines|
    ensures |r| == |lines|
  {
    var l, next := lines[i], lines[i + 1];
    lines[i + 1 := if next.indent > l.indent then next.(indent := l.indent) else next]
  }

  /** Delete at a line end removes the next line together with every line
      after it that is deeper than min(indent(i), indent(i+1)), and nothing
      else. */
  lemma MergeNextBlockRemovesDeeperLines(lines: seq<Line>, i: nat)
    requires i + 1 < |lines|
    ensures var base := Min(lines[i].indent, lines[i + 1].indent);
            var j := DeeperRunEnd(lines, base, i + 2);
            var r := MergeNextBlock(lines, i);
            && r == lines[..i] + [lines[i].(text := lines[i].text + lines[i + 1].text)] + lines[j..]
            && (forall k :: i + 1 < k < j ==> lines[k].indent > base)
            && (j == |lines| || lines[j].indent <= base)
  {
    var l, next := lines[i], lines[i + 1];
    var base := Min(l.indent, next.indent);
    var clamped := ClampNext(lines, i);
    assert clamped[i + 1].indent == base;
    DeeperRunSame(lines, clamped, base, i + 2);
  }

  /** Cutting `[i + 1, blockEnd)` out of a sequence that differs from
      `lines` at most at `i` and `i + 1` and holds `merged` at `i`. */
  lemma SpliceOutAfter(lines: seq<Line>, cur: seq<Line>, i: nat, merged: Line, blockEnd: nat)
    requires i + 1 < blockEnd <= |lines| == |cur| && cur[i] == merged
    requires forall k :: 0 <= k < |lines| && k != i && k != i + 1 ==> cur[k] == lines[k]
    ensures cur[..i + 1] + cur[blockEnd..] == lines[..i] + [merged] + lines[blockEnd..]
  {
    assert cur[..i + 1] == lines[..i] + [merged];
    assert cur[blockEnd..] == lines[blockEnd..];
  }

  lemma {:induction false} DeeperRunSame(a: seq<Line>, b: seq<Line>, base: nat, j: nat)
    requires |a| == |b| && j <= |a|
    requires forall k :: j <= k < |a| ==> a[k].indent == b[k].indent
    ensures DeeperRunEnd(a, base, j) == DeeperRunEnd(b, base, j)
    decreases |a| - j
  {
    if j < |a| && a[j].indent > base {
      DeeperRunSame(a, b, base, j + 1);
    }
  }

  /** The outline of the delete test in tests/editor-delete.test.js: the
      grandchild does not survive a delete at the end of "Parent". */
  lemma DeleteAtLineEndDropsGrandchild()
    ensures var lines := [Line(0, Text, "Parent", 0, false), Line(1, Text, "Child header", 1, false),
                          Line(2, Text, "Grandchild", 2, false)];
            MergeNextBlock(lines, 0) == [Line(0, Text, "ParentChild header", 0, false)]
  {
    var lines := [Line(0, Text, "Parent", 0, false), Line(1, Text, "Child header", 1, false),
                  Line(2, Text, "Grandchild", 2, false)];
    MergeNextBlockRemovesDeeperLines(lines, 0);
    assert DeeperRunEnd(lines, 0, 2) == 3 by {
      assert DeeperRunEnd(lines, 0, 3) == 3;
    }
    assert lines[..0] == [] && lines[3..] == [];
    assert "Parent" + "Child header" == "ParentChild header";
  }

  /** Delete at a line end as the same test expects it: the merge that
      Backspace performs from the start of the next line, which removes that
      line alone (`MergeWithPreviousRemovesOneLine`). The grandchild survives
      with its indent. */
  lemma DeleteAtLineEndKeepsGrandchild()
    ensures var lines := [Line(0, Text, "Parent", 0, false), Line(1, Text, "Child header", 1, false),
                          Line(2, Text, "Grandchild", 2, false)];
            MergeWithPrevious(lines, 1) == [Line(0, Text, "ParentChild header", 0, false), Line(2, Text, "Grandchild", 2, false)]
  {
    var lines := [Line(0, Text, "Parent", 0, false), Line(1, Text, "Child header", 1, false),
                  Line(2, Text, "Grandchild", 2, false)];
    MergeWithPreviousRemovesOneLine(lines, 1);
    assert "Parent" + "Child header" == "ParentChild header";
  }

  // ----- Backspace and Delete key presses -----

  /** What a Backspace or Delete press does to a document without a selection. */
  datatype KeyEffect =
    | Unchanged                                       // nothing, not even a history entry
    | Outdent                                         // `changeIndent(-1)` on the caret line
    | Rewrite(lines: seq<Line>, caret: Option<Point>) // new lines; with no caret, caret and anchor stay

  /** `handleBackspace` without a selection. */
  function BackspaceEffect(lines: seq<Line>, p: Point): KeyEffect
    requires PointIn(lines, p)
  {
    var l := lines[p.line];
    if l.kind.Image? then
      if p.ch == 0 && l.indent > 0 then Outdent
      else if p.line == 0 then Unchanged
      else Rewrite(RemoveLine(lines, p.line), Some(Point(p.line - 1, LineLength(lines[p.line - 1]))))
    else if p.ch > 0 then
      Rewrite(DeleteBefore(lines, p), Some(Point(p.line, p.ch - 1)))
    else if p.line > 0 && lines[p.line - 1].kind.Image? then
      Rewrite(RemoveLine(lines, p.line - 1), Some(Point(p.line - 1, 0)))
    else if l.indent > 0 then Outdent
    else if p.line == 0 then Unchanged
    else Rewrite(MergeWithPrevious(lines, p.line), Some(Point(p.line - 1, LineLength(lines[p.line - 1]))))
  }

  /** `handleDelete` without a selection; `freshId` is the id of the empty
      line created when the only line, an image, is deleted. */
  function DeleteEffect(lines: seq<Line>, p: Point, freshId: nat): KeyEffect
    requires PointIn(lines, p)
  {
    var l := lines[p.line];
    if l.kind.Image? then
      var d := ImageDeletion(lines, p, freshId);
      Rewrite(d.0, Some(d.1))
    else if p.ch < |l.text| then Rewrite(DeleteAfter(lines, p), None)
    else if p.line >= |lines| - 1 then Unchanged
    else if lines[p.line + 1].kind.Image? then Rewrite(RemoveLine(lines, p.line + 1), None)
    else Rewrite(MergeNextBlock(lines, p.line), None)
  }

  /** Delete on an image line: the line goes; the caret stays at its
      index (or moves onto the new last line) with its unit index clamped;
      an emptied document gets a fresh empty text line. */
  function ImageDeletion(lines: seq<Line>, p: Point, freshId: nat): (d: (seq<Line>, Point))
    requires PointIn(lines, p) && lines[p.line].kind.Image?
    ensures |d.0| >= 1 && PointIn(d.0, d.1)
    ensures |lines| > 1 ==> |d.0| == |lines| - 1 && d.1.line == Min(p.line, |lines| - 2) && d.1.ch <= p.ch
    ensures |lines| == 1 ==> d == ([Line(freshId, Text, "", 0, false)], Point(0, 0))
  {
    var r := lines[..p.line] + lines[p.line + 1..];
    if |r| == 0 then ([Line(freshId, Text, "", 0, false)], Point(0, 0))
    else
      var target := Min(p.line, |r| - 1);
      (r, Point(target, Min(p.ch, LineLength(r[target]))))
  }

  /** Whether `handleDelete` creates a line (the document would be empty). */
  function DeleteCreatesLine(lines: seq<Line>, p: Point): bool
    requires PointIn(lines, p)
  {
    lines[p.line].kind.Image? && |lines| == 1
  }

  /** Backspace never empties the document, leaves the caret inside it and
      removes at most one line; it does nothing only at the very start, and
      outdents only at column 0 of an indented line. */
  lemma BackspaceShape(lines: seq<Line>, p: Point)
    requires PointIn(lines, p)
    ensures match BackspaceEffect(lines, p)
            case Unchanged => p.line == 0 && (lines[0].kind.Text? ==> p.ch == 0 && lines[0].indent == 0)
            case Outdent => p.ch == 0 && lines[p.line].indent > 0
            case Rewrite(r, c) =>
              && c.Some? && |r| >= 1 && PointIn(r, c.value)
              && |lines| - 1 <= |r| <= |lines|
  {
  }

  /** Backspace keeps ids unique and under any bound: it creates no line. */
  lemma BackspaceIds(lines: seq<Line>, p: Point, bound: nat)
    requires PointIn(lines, p) && UniqueIds(lines) && IdsBelow(lines, bound)
    ensures var e := BackspaceEffect(lines, p);
            e.Rewrite? ==> UniqueIds(e.lines) && IdsBelow(e.lines, bound)
  {
    var l := lines[p.line];
    match BackspaceEffect(lines, p)
    case Unchanged =>
    case Outdent =>
    case Rewrite(r, c) =>
      if l.kind.Image? {
        RemoveRangeIds(lines, p.line, p.line + 1, bound);
      } else if p.ch > 0 {
        SameIds(lines, r, bound);
      } else if p.line > 0 && lines[p.line - 1].kind.Image? {
        RemoveRangeIds(lines, p.line - 1, p.line, bound);
      } else {
        var prev := lines[p.line - 1];
        ReplaceRangeIds(lines, p.line - 1, p.line + 1, prev.(text := prev.text + l.text), bound);
      }
  }

  /** Backspace at column 0 of a text line below a text line: an indented
      line is only outdented; otherwise it is appended to the previous line,
      exactly one line goes, and the caret lands at the previous line's old
      end. */
  lemma BackspaceAtLineStart(lines: seq<Line>, p: Point)
    requires PointIn(lines, p)
    requires lines[p.line].kind.Text? && p.ch == 0 && p.line > 0 && lines[p.line - 1].kind.Text?
    ensures var l := lines[p.line];
            if l.indent > 0 then BackspaceEffect(lines, p) == Outdent
            else BackspaceEffect(lines, p) == Rewrite(MergeWithPrevious(lines, p.line), Some(Point(p.line - 1, |lines[p.line - 1].text|)))
                 && |MergeWithPrevious(lines, p.line)| == |lines| - 1
                 && MergeWithPrevious(lines, p.line)[p.line - 1].text == lines[p.line - 1].text + l.text
  {
    MergeWithPreviousRemovesOneLine(lines, p.line);
  }

  /** Delete never empties the document, leaves the caret inside it and keeps
      ids unique (the one line it may create takes `freshId`). */
  lemma DeleteShape(lines: seq<Line>, p: Point, freshId: nat)
    requires PointIn(lines, p)
    ensures match DeleteEffect(lines, p, freshId)
            case Unchanged => lines[p.line].kind.Text? && p.ch == |lines[p.line].text| && p.line == |lines| - 1
            case Outdent => false
            case Rewrite(r, c) =>
              && |r| >= 1
              && (c.None? ==> PointIn(r, p))
              && (c.Some? ==> PointIn(r, c.value))
              && (UniqueIds(lines) && IdsBelow(lines, freshId) ==>
                    UniqueIds(r) && IdsBelow(r, freshId + if DeleteCreatesLine(lines, p) then 1 else 0))
  {
    var l := lines[p.line];
    match DeleteEffect(lines, p, freshId)
    case Unchanged =>
    case Outdent =>
    case Rewrite(r, c) =>
      if l.kind.Image? {
        DeleteImageLine(lines, p, freshId);
      } else if p.ch < |l.text| {
        SameIds(lines, r, freshId);
      } else if lines[p.line + 1].kind.Image? {
        RemoveRangeIds(lines, p.line + 1, p.line + 2, freshId);
      } else {
        MergeNextBlockIds(lines, p.line, freshId);
      }
  }

  lemma DeleteImageLine(lines: seq<Line>, p: Point, freshId: nat)
    requires PointIn(lines, p) && lines[p.line].kind.Image?
    ensures var d := ImageDeletion(lines, p, freshId);
            UniqueIds(lines) && IdsBelow(lines, freshId) ==>
              UniqueIds(d.0) && IdsBelow(d.0, freshId + if DeleteCreatesLine(lines, p) then 1 else 0)
  {
    if |lines| > 1 {
      RemoveRangeIds(lines, p.line, p.line + 1, freshId);
    }
  }

  lemma MergeNextBlockIds(lines: seq<Line>, i: nat, bound: nat)
    requires i + 1 < |lines|
    ensures var r := MergeNextBlock(lines, i);
            && i < |r| && r[..i] == lines[..i]
            && r[i] == lines[i].(text := lines[i].text + lines[i + 1].text)
            && (UniqueIds(lines) && IdsBelow(lines, bound) ==> UniqueIds(r) && IdsBelow(r, bound))
  {
    var l, next := lines[i], lines[i + 1];
    ReplaceRangeIds(lines, i, DescendantEnd(ClampNext(lines, i), i + 1), l.(text := l.text + next.text), bound);
  }

  // ----- indentation -----

  /** Lines `[lo, hi)` get indent max(0, indent + delta); nothing else changes. */
  function Reindent(lines: seq<Line>, lo: nat, hi: nat, delta: int): (r: seq<Line>)
    ensures |r| == |lines|
    ensures forall k :: 0 <= k < |lines| ==>
              r[k] == if lo <= k < hi then lines[k].(indent := Max(0, lines[k].indent + delta)) else lines[k]
  {
    seq(|lines|, k requires 0 <= k < |lines| =>
      if lo <= k < hi then lines[k].(indent := Max(0, lines[k].indent + delta)) else lines[k])
  }

  /** Reindenting one more line of the range extends it by that line. */
  lemma ReindentStep(lines: seq<Line>, lo: nat, i: nat, delta: int)
    requires lo <= i < |lines|
    ensures var r := Reindent(lines, lo, i, delta);
            r[i := r[i].(indent := Max(0, r[i].indent + delta))] == Reindent(lines, lo, i + 1, delta)
  {
  }

  /** Reindenting `[b, c)` after `[a, b)` reindents `[a, c)`. */
  lemma ReindentConcat(lines: seq<Line>, a: nat, b: nat, c: nat, delta: int)
    requires a <= b <= c
    ensures Reindent(Reindent(lines, a, b, delta), b, c, delta) == Reindent(lines, a, c, delta)
  {
  }

  /** Blocks headed at or below `b` are the same after reindenting `[a, b)`:
      a block only looks at its head and the lines after it. */
  lemma ReindentKeepsBlocksBelow(lines: seq<Line>, a: nat, b: nat, delta: int)
    requires b < |lines|
    ensures DescendantEnd(Reindent(lines, a, b, delta), b) == DescendantEnd(lines, b)
  {
    DeeperRunSame(Reindent(lines, a, b, delta), lines, lines[b].indent, b + 1);
  }

  /** Reindenting changes no id, kind or text. */
  lemma ReindentSameShape(lines: seq<Line>, lo: nat, hi: nat, delta: int)
    ensures var r := Reindent(lines, lo, hi, delta);
            forall k :: 0 <= k < |lines| ==> r[k].id == lines[k].id && LineLength(r[k]) == LineLength(lines[k])
  {
  }

  /** The `includeChildren` walk of `changeIndent`: from block head `index`,
      jump to the end of its block while the head is within `[.., end]`. */
  function BlockChainEnd(lines: seq<Line>, index: nat, end: nat): (r: nat)
    requires index <= |lines|
    ensures index <= r <= |lines|
    ensures index <= end + 1 ==> r >= Min(end + 1, |lines|)
    decreases |lines| - index
  {
    if index <= end && index < |lines| then
      var de := DescendantEnd(lines, index);
      assert index < de;
      BlockChainEnd(lines, de, end)
    else
      index
  }

  /** Every line the block walk covers beyond the selected range lies in the
      block of a selected line: it is deeper than some line of the range. */
  lemma {:induction false} BlockChainCoversDescendants(lines: seq<Line>, index: nat, end: nat, k: nat)
    requires index <= end + 1 && index <= |lines|
    requires end < k < BlockChainEnd(lines, index, end)
    ensures exists h :: index <= h <= end && h < k && lines[k].indent > lines[h].indent
    decreases |lines| - index
  {
    var de := DescendantEnd(lines, index);
    if k < de {
      assert lines[k].indent > lines[index].indent;
    } else {
      BlockChainCoversDescendants(lines, de, end, k);
      var h :| de <= h <= end && h < k && lines[k].indent > lines[h].indent;
    }
  }

  // ----- collapse -----

  /** Flip the collapsed flag of line `i`. */
  function ToggleLines(lines: seq<Line>, i: nat): (r: seq<Line>)
    requires i < |lines|
    ensures |r| == |lines| && forall k :: 0 <= k < |lines| && k != i ==> r[k] == lines[k]
    ensures r[i] == lines[i].(collapsed := !lines[i].collapsed)
  {
    lines[i := lines[i].(collapsed := !lines[i].collapsed)]
  }

  /** Parents depend on indents only. */
  lemma {:induction false} ShallowerSameIndents(a: seq<Line>, b: seq<Line>, indent: nat, k: int)
    requires |a| == |b| && -1 <= k < |a|
    requires forall j :: 0 <= j < |a| ==> a[j].indent == b[j].indent
    ensures ShallowerBefore(a, indent, k) == ShallowerBefore(b, indent, k)
    decreases k + 1
  {
    if k >= 0 && a[k].indent >= indent {
      ShallowerSameIndents(a, b, indent, k - 1);
    }
  }

  /** Toggling line `i` does not change whether `i` or any line above it is
      visible: visibility only looks at lines above. */
  lemma {:induction false} ToggleKeepsVisibilityAbove(lines: seq<Line>, i: nat, j: nat)
    requires j <= i < |lines|
    ensures IsVisible(ToggleLines(lines, i), j) == IsVisible(lines, j)
    decreases j
  {
    var r := ToggleLines(lines, i);
    ShallowerSameIndents(lines, r, lines[j].indent, j - 1);
    assert Parent(r, j) == Parent(lines, j);
    match Parent(lines, j)
    case None =>
    case Some(p) =>
      ToggleKeepsVisibilityAbove(lines, i, p);
  }

  /** Blocks nest: a line inside the block of `i`, which is inside the block
      of `a`, is inside the block of `a`. */
  lemma BlockNesting(lines: seq<Line>, a: nat, i: nat, j: nat)
    requires a < i < j < |lines|
    requires DescendantEnd(lines, a) > i && DescendantEnd(lines, i) > j
    ensures DescendantEnd(lines, a) > j
  {
    InsideBlock(lines, a, i);
    forall k | a < k <= j
      ensures lines[k].indent > lines[a].indent
    {
      if k > i {
        assert lines[k].indent > lines[i].indent;
      }
    }
    InsideBlock(lines, a, j);
  }

  /** Toggling changes no block boundary. */
  lemma ToggleSameBlocks(lines: seq<Line>, i: nat, a: nat)
    requires i < |lines| && a < |lines|
    ensures DescendantEnd(ToggleLines(lines, i), a) == DescendantEnd(lines, a)
  {
    var r := ToggleLines(lines, i);
    DeeperRunSame(r, lines, lines[a].indent, a + 1);
  }

  /** Toggling line `i` never hides a visible caret line `j` for good: if it
      hides `j`, the toggled line itself, where the caret is then moved, is
      visible; otherwise `j` stays visible. */
  lemma ToggleKeepsCaretVisible(lines: seq<Line>, i: nat, j: nat)
    requires i < |lines| && j < |lines| && IsVisible(lines, j)
    ensures var r := ToggleLines(lines, i);
            if r[i].collapsed && !IsVisible(r, j) then IsVisible(r, i) else IsVisible(r, j)
  {
    var r := ToggleLines(lines, i);
    VisibleIffOutsideCollapsedBlocks(lines, j);
    VisibleIffOutsideCollapsedBlocks(r, j);
    if !IsVisible(r, j) {
      // some collapsed line of r hides j; it can only be i
      forall b | 0 <= b < j && b != i && r[b].collapsed
        ensures DescendantEnd(r, b) <= j
      {
        ToggleSameBlocks(lines, i, b);
      }
      var a :| 0 <= a < j && r[a].collapsed && DescendantEnd(r, a) > j;
      assert a == i;
      ToggleSameBlocks(lines, i, a);
      ToggleKeepsVisibilityAbove(lines, i, i);
      VisibleIffOutsideCollapsedBlocks(lines, i);
      forall b | 0 <= b < i && lines[b].collapsed
        ensures DescendantEnd(lines, b) <= i
      {
        if DescendantEnd(lines, b) > i {
          ToggleSameBlocks(lines, i, i);
          BlockNesting(lines, b, i, j);
        }
      }
    } else {
      assert IsVisible(r, j);
    }
  }

  // ----- moving lines and blocks -----

  /** `moveLine`: the range `[start, end]` moved by `delta` lines. */
  function MovedLines<T>(lines: seq<T>, start: nat, end: nat, delta: int): (r: seq<T>)
    requires start <= end < |lines| && delta != 0
    requires 0 <= start + delta && end + delta < |lines|
    ensures |r| == |lines|
  {
    Relocate(lines, start, end + 1, start + delta)
  }

  /** The moved range lands `delta` lines away, and lines outside both the
      old and the new position keep their places. */
  lemma MovedLinesParts<T>(lines: seq<T>, start: nat, end: nat, delta: int)
    requires start <= end < |lines| && delta != 0
    requires 0 <= start + delta && end + delta < |lines|
    ensures var r := MovedLines(lines, start, end, delta);
            && r[start + delta..end + delta + 1] == lines[start..end + 1]
            && forall k :: 0 <= k < |lines| && (k < Min(start, start + delta) || k > Max(end, end + delta)) ==> r[k] == lines[k]
  {
    if delta < 0 {
      MovedUpParts(lines, start + delta, start, end + 1);
    } else {
      MovedDownParts(lines, start, end + 1, end + 1 + delta);
    }
  }

  /** `MovedLinesParts` for a move up: `[a, b)` relocated to `x`. */
  lemma MovedUpParts<T>(lines: seq<T>, x: nat, a: nat, b: nat)
    requires x < a < b <= |lines|
    ensures var r := Relocate(lines, a, b, x);
            && r[x..x + (b - a)] == lines[a..b]
            && forall k :: 0 <= k < |lines| && (k < x || k >= b) ==> r[k] == lines[k]
  {
    SpliceUp(lines, x, a, b);
    SwapParts(lines, x, a, b);
    var r := Relocate(lines, a, b, x);
    forall k | 0 <= k < |lines| && (k < x || k >= b)
      ensures r[k] == lines[k]
    {
      if k < x {
        assert r[k] == r[..x][k];
      } else {
        assert r[k] == r[b..][k - b];
      }
    }
  }

  /** `MovedLinesParts` for a move down: `[a, b)` relocated behind `[b, c)`. */
  lemma MovedDownParts<T>(lines: seq<T>, a: nat, b: nat, c: nat)
    requires a < b < c <= |lines|
    ensures var r := Relocate(lines, a, b, c - (b - a));
            && r[c - (b - a)..c] == lines[a..b]
            && forall k :: 0 <= k < |lines| && (k < a || k >= c) ==> r[k] == lines[k]
  {
    SpliceDown(lines, a, b, c);
    SwapParts(lines, a, b, c);
    var r := Relocate(lines, a, b, c - (b - a));
    forall k | 0 <= k < |lines| && (k < a || k >= c)
      ensures r[k] == lines[k]
    {
      if k < a {
        assert r[k] == r[..a][k];
      } else {
        assert r[k] == r[c..][k - c];
      }
    }
  }

  /** Moving lines only rearranges them. */
  lemma MovedLinesPermutes<T>(lines: seq<T>, start: nat, end: nat, delta: int)
    requires start <= end < |lines| && delta != 0
    requires 0 <= start + delta && end + delta < |lines|
    ensures multiset(MovedLines(lines, start, end, delta)) == multiset(lines)
  {
    RelocatePermutes(lines, start, end + 1, start + delta);
  }


  /** `shiftPoint`: points on the moved lines follow them. */
  function ShiftPoint(p: Point, start: nat, end: nat, delta: int): Point
    requires 0 <= start + delta
  {
    if p.line < start || p.line > end then p else Point(p.line + delta, p.ch)
  }

  /** A point on a moved line still designates the same line and unit. */
  lemma ShiftPointFollowsLine(lines: seq<Line>, start: nat, end: nat, delta: int, p: Point)
    requires start <= end < |lines| && delta != 0
    requires 0 <= start + delta && end + delta < |lines|
    requires start <= p.line <= end && PointIn(lines, p)
    ensures var q := ShiftPoint(p, start, end, delta);
            MovedLines(lines, start, end, delta)[q.line] == lines[p.line] && PointIn(MovedLines(lines, start, end, delta), q)
  {
    var r := MovedLines(lines, start, end, delta);
    MovedLinesParts(lines, start, end, delta);
    assert r[p.line + delta] == r[start + delta..end + delta + 1][p.line - start];
  }

  /** The previous sibling block's head for `moveBlock(-1)`: the nearest line
      above `start` that is not deeper than it, provided it has the same indent. */
  function PrevSiblingHead(lines: seq<Line>, start: nat): (r: Option<nat>)
    requires start < |lines|
    ensures r.Some? ==> r.value < start && lines[r.value].indent == lines[start].indent
    ensures r.Some? ==> DescendantEnd(lines, r.value) == start
  {
    match ShallowerBefore(lines, lines[start].indent + 1, start as int - 1)
    case None => None
    case Some(prev) =>
      if lines[prev].indent == lines[start].indent then
        assert forall k :: prev < k < start ==> lines[k].indent > lines[prev].indent;
        Some(prev)
      else None
  }

  /** `moveBlock(-1)` swaps the caret's block with the previous sibling block;
      `moveBlock(+1)` with the next one. */
  function MovedBlock(lines: seq<Line>, start: nat, direction: int): (r: Option<(seq<Line>, nat)>)
    requires start < |lines|
  {
    var end := DescendantEnd(lines, start);
    if direction < 0 then
      match PrevSiblingHead(lines, start)
      case None => None
      case Some(prev) => Some((Swap(lines, prev, start, end), prev))
    else if end < |lines| && lines[end].indent == lines[start].indent then
      var nextEnd := DescendantEnd(lines, end);
      Some((Swap(lines, start, end, nextEnd), nextEnd - (end - start)))
    else
      None
  }

  /** `moveBlock(-1)` once the scan found the previous sibling's head `prev`. */
  lemma MovedBlockUp(lines: seq<Line>, start: nat, direction: int, prev: nat)
    requires start < |lines| && direction < 0 && prev < start
    requires ShallowerBefore(lines, lines[start].indent + 1, prev) == ShallowerBefore(lines, lines[start].indent + 1, start as int - 1)
    requires lines[prev].indent == lines[start].indent
    ensures MovedBlock(lines, start, direction) == Some((Relocate(lines, start, DescendantEnd(lines, start), prev), prev))
  {
    SpliceUp(lines, prev, start, DescendantEnd(lines, start));
  }

  /** `moveBlock(+1)` when the line after the block is a sibling's head. */
  lemma MovedBlockDown(lines: seq<Line>, start: nat, direction: int)
    requires start < |lines| && direction >= 0
    requires DescendantEnd(lines, start) < |lines| && lines[DescendantEnd(lines, start)].indent == lines[start].indent
    ensures var end := DescendantEnd(lines, start);
            var at := DescendantEnd(lines, end) - (end - start);
            MovedBlock(lines, start, direction) == Some((Relocate(lines, start, end, at), at))
  {
    var end := DescendantEnd(lines, start);
    SpliceDown(lines, start, end, DescendantEnd(lines, end));
  }

  /** A block move keeps the line count and the multiset of lines, puts the
      block (head first) at the returned index, and swaps it with a block
      whose head has the same indent. */
  lemma MovedBlockIsSiblingSwap(lines: seq<Line>, start: nat, direction: int)
    requires start < |lines|
    ensures match MovedBlock(lines, start, direction)
            case None =>
              if direction < 0 then PrevSiblingHead(lines, start).None?
              else DescendantEnd(lines, start) == |lines| || lines[DescendantEnd(lines, start)].indent != lines[start].indent
            case Some((r, head)) =>
              var len := DescendantEnd(lines, start) - start;
              && |r| == |lines| && multiset(r) == multiset(lines)
              && head + len <= |r|
              && r[head..head + len] == lines[start..start + len]
              && (direction < 0 ==> head < start)
              && (direction >= 0 ==> head > start)
  {
    var end := DescendantEnd(lines, start);
    if direction < 0 {
      if PrevSiblingHead(lines, start).Some? {
        SwapParts(lines, PrevSiblingHead(lines, start).value, start, end);
        SwapPermutes(lines, PrevSiblingHead(lines, start).value, start, end);
      }
    } else if end < |lines| && lines[end].indent == lines[start].indent {
      SwapParts(lines, start, end, DescendantEnd(lines, end));
      SwapPermutes(lines, start, end, DescendantEnd(lines, end));
    }
  }
  /** `block = s.splice(a, b - a); s.splice(at, 0, ...block)`: the block
      `[a, b)` cut out and put back at index `at` of what remains. */
  function Relocate<T>(s: seq<T>, a: nat, b: nat, at: nat): (r: seq<T>)
    requires a <= b <= |s| && at <= |s| - (b - a)
    ensures |r| == |s|
  {
    var rest := s[..a] + s[b..];
    rest[..at] + s[a..b] + rest[at..]
  }

  /** Relocating a run of elements only reorders them. */
  lemma RelocatePermutes<T>(s: seq<T>, a: nat, b: nat, at: nat)
    requires a <= b <= |s| && at <= |s| - (b - a)
    ensures multiset(Relocate(s, a, b, at)) == multiset(s)
  {
    var rest := s[..a] + s[b..];
    assert rest == rest[..at] + rest[at..];
    assert s == s[..a] + s[a..b] + s[b..];
    calc {
      multiset(Relocate(s, a, b, at));
      multiset(rest[..at]) + multiset(s[a..b]) + multiset(rest[at..]);
      multiset(rest) + multiset(s[a..b]);
      multiset(s[..a]) + multiset(s[a..b]) + multiset(s[b..]);
      multiset(s);
    }
  }

  /** Putting the block back in at `x <= a` swaps `[x, a)` and `[a, b)`. */
  lemma SpliceUp<T>(s: seq<T>, x: nat, a: nat, b: nat)
    requires x <= a <= b <= |s|
    ensures Relocate(s, a, b, x) == Swap(s, x, a, b)
  {
    var rest := s[..a] + s[b..];
    assert rest[..x] == s[..x];
    assert rest[x..] == s[x..a] + s[b..];
  }

  /** Putting the block back in so that it ends at `c >= b` swaps `[a, b)`
      and `[b, c)`. */
  lemma SpliceDown<T>(s: seq<T>, a: nat, b: nat, c: nat)
    requires a <= b <= c <= |s|
    ensures Relocate(s, a, b, c - (b - a)) == Swap(s, a, b, c)
  {
    var rest := s[..a] + s[b..];
    var at := c - (b - a);
    assert rest[..at] == s[..a] + s[b..c];
    assert rest[at..] == s[c..];
  }
}
