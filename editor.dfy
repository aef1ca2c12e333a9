/**
 * The outline editor's document engine (`CanvasEditor` in
 * src/editor/editor.js): the lines, the caret, the selection and its anchor,
 * the snapshot undo/redo stacks and the document version counter. Every
 * edit is stated against the pure line functions of the Edits module.
 */
module Editor {
  import opened JsString
  import opened Util
  import opened Outline
  import opened Edits

  /** `config.historyLimit` */
  const HISTORY_LIMIT: nat := 200

  /** `createStateSnapshot`: lines, caret, selection and scroll offsets. The
      source deep-copies; values make every copy independent here. */
  datatype Snapshot = Snapshot(lines: seq<Line>, cursor: Point, selection: Option<Selection>,
                               scrollTop: int, scrollLeft: int)

  /** At least one line, and the caret and both selection ends on it. */
  predicate DocValid(lines: seq<Line>, cursor: Point, selection: Option<Selection>)
  {
    && |lines| >= 1
    && PointIn(lines, cursor)
    && (selection.Some? ==> PointIn(lines, selection.value.start) && PointIn(lines, selection.value.end))
  }

  ghost predicate SnapshotValid(s: Snapshot, bound: nat)
  {
    DocValid(s.lines, s.cursor, s.selection) && UniqueIds(s.lines) && IdsBelow(s.lines, bound)
  }

  /** Raising the id bound keeps the snapshots of a history stack valid. */
  lemma StackGrows(stack: seq<Snapshot>, a: nat, b: nat)
    requires a <= b && forall k :: 0 <= k < |stack| ==> SnapshotValid(stack[k], a)
    ensures forall k :: 0 <= k < |stack| ==> SnapshotValid(stack[k], b)
  {
  }

  /** The undo push of `saveHistory`: append, then drop the oldest entry
      when the stack exceeds the limit. */
  function PushBounded(stack: seq<Snapshot>, s: Snapshot): (r: seq<Snapshot>)
    ensures |stack| <= HISTORY_LIMIT ==> |r| <= HISTORY_LIMIT
    ensures |stack| < HISTORY_LIMIT ==> r == stack + [s]
    ensures |stack| >= HISTORY_LIMIT ==> r == stack[1..] + [s]
  {
    var pushed := stack + [s];
    if |pushed| > HISTORY_LIMIT then
      assert pushed[1..] == stack[1..] + [s];
      pushed[1..]
    else pushed
  }

  /** The lines and caret once a selection, if any, has been collapsed: the
      state every insertion starts from. */
  function Collapsed(lines: seq<Line>, cursor: Point, selection: Option<Selection>): (r: (seq<Line>, Point))
    requires DocValid(lines, cursor, selection)
    ensures |r.0| >= 1 && PointIn(r.0, r.1)
    ensures selection.None? ==> r == (lines, cursor)
  {
    match selection
    case None => (lines, cursor)
    case Some(s) => (CollapseRange(lines, s), NormalizeSelection(s).start)
  }

  /** The extra version bump of a collapse performed before an edit. */
  function CollapseBump(selection: Option<Selection>): nat
  {
    if selection.Some? then 1 else 0
  }

  /** The line range `changeIndent` works on: the selection's lines, or the
      caret line; none when asked for the selection and there is none. */
  function IndentRange(selection: Option<Selection>, cursor: Point, applyToSelection: bool): (r: Option<LineRange>)
    ensures r.Some? ==> r.value.start <= r.value.end
    ensures !applyToSelection ==> r == Some(LineRange(cursor.line, cursor.line))
    ensures applyToSelection ==> (r.None? <==> selection.None?)
  {
    if applyToSelection then SelectionLineRange(selection) else Some(LineRange(cursor.line, cursor.line))
  }

  /** One past the last line `changeIndent` touches: the end of the block
      walk with `includeChildren`, else the range end (clipped to the document). */
  function IndentEnd(lines: seq<Line>, range: LineRange, includeChildren: bool): (r: nat)
    requires range.start <= range.end && range.start < |lines|
    ensures range.start < r <= |lines|
    ensures r >= Min(range.end + 1, |lines|)
    ensures !includeChildren ==> r == Min(range.end + 1, |lines|)
  {
    if includeChildren then BlockChainEnd(lines, range.start, range.end)
    else if range.end + 1 <= |lines| then range.end + 1 else |lines|
  }

  /** The lines `moveLine` moves: the selection's lines, or the caret line. */
  function MoveRange(selection: Option<Selection>, cursor: Point): (r: (nat, nat))
    ensures r.0 <= r.1
    ensures selection.None? ==> r == (cursor.line, cursor.line)
    ensures selection.Some? ==> {r.0, r.1} == {selection.value.start.line, selection.value.end.line}
  {
    match SelectionLineRange(selection)
    case None => (cursor.line, cursor.line)
    case Some(range) => (range.start, range.end)
  }

  /** Where `setCursor(lineIndex, charIndex)` puts the caret: the line index
      clamped into the document, the unit index into that line. */
  function ClampPoint(lines: seq<Line>, lineIndex: int, charIndex: int): (p: Point)
    requires |lines| >= 1
    ensures PointIn(lines, p)
    ensures 0 <= lineIndex < |lines| ==> p.line == lineIndex
    ensures 0 <= lineIndex && 0 <= charIndex && PointIn(lines, Point(lineIndex, charIndex)) ==>
              p == Point(lineIndex, charIndex)
  {
    var li := Clamp(lineIndex, 0, |lines| - 1);
    Point(li, Clamp(charIndex, 0, LineLength(lines[li])))
  }

  /** Lines with the same ids and line lengths keep a valid document valid. */
  lemma SameShapeKeepsDoc(a: seq<Line>, b: seq<Line>, cursor: Point, selection: Option<Selection>, bound: nat)
    requires |a| == |b| && forall k :: 0 <= k < |a| ==> b[k].id == a[k].id && LineLength(b[k]) == LineLength(a[k])
    requires DocValid(a, cursor, selection) && UniqueIds(a) && IdsBelow(a, bound)
    ensures DocValid(b, cursor, selection) && UniqueIds(b) && IdsBelow(b, bound)
  {
    SameIds(a, b, bound);
  }

  class Editor {
    var lines: seq<Line>
    var cursor: Point
    var selection: Option<Selection>
    /** `selectionAnchor`: where a keyboard selection started. Undo does not
        restore it, so it is not part of the invariant. */
    var anchor: Option<Point>
    var undoStack: seq<Snapshot>
    var redoStack: seq<Snapshot>
    var documentVersion: nat
    /** The next fresh line id (the source draws random UUIDs). */
    var nextId: nat
    var scrollTop: int
    var scrollLeft: int

    ghost predicate Valid()
      reads this
    {
      && DocValid(lines, cursor, selection)
      && UniqueIds(lines) && IdsBelow(lines, nextId)
      && |undoStack| + |redoStack| <= HISTORY_LIMIT
      && (forall k :: 0 <= k < |undoStack| ==> SnapshotValid(undoStack[k], nextId))
      && (forall k :: 0 <= k < |redoStack| ==> SnapshotValid(redoStack[k], nextId))
    }

    /** `createInitialState`: the three sample lines, caret at the start, no
        selection, empty history. */
    constructor ()
      ensures Valid()
      ensures lines == [Line(0, Text, "インデントが1の次に3になる場合もあります。", 0, false),
                        Line(1, Text, "Shift + Tabでインデントを戻せます。", 1, false),
                        Line(2, Text, "選択範囲の描画も丁寧に行います。", 3, false)]
      ensures cursor == Point(0, 0) && selection.None? && anchor.None?
      ensures undoStack == [] && redoStack == [] && documentVersion == 0 && nextId == 3
      ensures scrollTop == 0 && scrollLeft == 0
    {
      lines := [Line(0, Text, "インデントが1の次に3になる場合もあります。", 0, false),
                Line(1, Text, "Shift + Tabでインデントを戻せます。", 1, false),
                Line(2, Text, "選択範囲の描画も丁寧に行います。", 3, false)];
      cursor := Point(0, 0);
      selection := None;
      anchor := None;
      undoStack := [];
      redoStack := [];
      documentVersion := 0;
      nextId := 3;
      scrollTop := 0;
      scrollLeft := 0;
    }

    function CreateStateSnapshot(): Snapshot
      reads this
    {
      Snapshot(lines, cursor, selection, scrollTop, scrollLeft)
    }

    /** `createLine`: a fresh id; text only on a text line; not collapsed. */
    method CreateLine(kind: Kind, text: string, indent: nat) returns (l: Line)
      modifies this`nextId
      ensures l == Line(old(nextId), kind, if kind.Text? then text else "", indent, false)
      ensures nextId == old(nextId) + 1
    {
      l := Line(nextId, kind, if kind.Text? then text else "", indent, false);
      nextId := nextId + 1;
    }

    /** `lines.splice(index, 0, x)`. */
    method InsertLineAt(index: nat, x: Line)
      requires index <= |lines|
      modifies this`lines
      ensures lines == old(lines)[..index] + [x] + old(lines)[index..]
    {
      lines := lines[..index] + [x] + lines[index..];
    }

    /** `lines.splice(index, 0, x)` at the seam between the two parts of the
        lines in front of `post` (the loops of the editor insert new lines one
        after another at such a seam). */
    method SpliceInsert(index: nat, x: Line, ghost pre: seq<Line>, ghost mid: seq<Line>, ghost post: seq<Line>)
      requires lines == pre + mid + post && index == |pre| + |mid|
      modifies this`lines
      ensures lines == pre + (mid + [x]) + post
    {
      InsertBehindMiddle(pre, mid, post, x);
      InsertLineAt(index, x);
    }

    // ----- caret -----

    /** `setCursor`: the line index is clamped into [0, max(0, n-1)] and the
        unit index into [0, length of that line]; with `resetSelection` the
        selection and its anchor are dropped. A point already in the document
        is kept as it is. */
    method SetCursor(lineIndex: int, charIndex: int, resetSelection: bool)
      requires |lines| >= 1
      modifies this`cursor, this`selection, this`anchor
      ensures cursor == ClampPoint(lines, lineIndex, charIndex)
      ensures resetSelection ==> selection.None? && anchor.None?
      ensures !resetSelection ==> selection == old(selection) && anchor == old(anchor)
    {
      var maxLineIndex := Max(0, |lines| - 1);
      var li := Clamp(lineIndex, 0, maxLineIndex);
      var ci := Clamp(charIndex, 0, LineLength(lines[li]));
      cursor := Point(li, ci);
      if resetSelection {
        selection := None;
        anchor := None;
      }
    }

    /** `markDocumentVersion` */
    method MarkDocumentVersion()
      modifies this`documentVersion
      ensures documentVersion == old(documentVersion) + 1
    {
      documentVersion := documentVersion + 1;
    }

    // ----- history -----

    /** The history entry `saveHistory` records, relative to the state
        before the call. */
    twostate predicate Recorded()
      reads this
    {
      undoStack == PushBounded(old(undoStack), old(CreateStateSnapshot())) && redoStack == []
    }

    /** `saveHistory`: push a snapshot of the current state (evicting the
        oldest beyond the limit) and clear the redo stack. */
    method SaveHistory()
      requires Valid()
      modifies this`undoStack, this`redoStack
      ensures Valid() && Recorded()
    {
      var snapshot := CreateStateSnapshot();
      ghost var before := undoStack;
      undoStack := undoStack + [snapshot];
      if |undoStack| > HISTORY_LIMIT {
        undoStack := undoStack[1..];
      }
      redoStack := [];
      assert forall k :: 0 <= k < |undoStack| ==> undoStack[k] == snapshot || undoStack[k] in before;
    }

    /** `applySnapshot`: replace lines, caret, selection and scroll offsets,
        and bump the version. */
    method ApplySnapshot(s: Snapshot)
      modifies this`lines, this`cursor, this`selection, this`scrollTop, this`scrollLeft, this`documentVersion
      ensures CreateStateSnapshot() == s
      ensures documentVersion == old(documentVersion) + 1
    {
      lines := s.lines;
      cursor := s.cursor;
      selection := s.selection;
      scrollTop := s.scrollTop;
      scrollLeft := s.scrollLeft;
      MarkDocumentVersion();
    }

    /** `undo`: no-op on an empty stack; otherwise the current state goes onto
        the redo stack and the newest undo entry is applied. */
    method Undo()
      requires Valid()
      modifies this`lines, this`cursor, this`selection, this`scrollTop, this`scrollLeft, this`documentVersion,
               this`undoStack, this`redoStack
      ensures Valid()
      ensures old(|undoStack|) == 0 ==> unchanged(this)
      ensures old(|undoStack|) > 0 ==>
                && undoStack == old(undoStack[..|undoStack| - 1])
                && redoStack == old(redoStack) + [old(CreateStateSnapshot())]
                && CreateStateSnapshot() == old(undoStack[|undoStack| - 1])
                && documentVersion == old(documentVersion) + 1
    {
      if |undoStack| == 0 {
        return;
      }
      var current := CreateStateSnapshot();
      var snapshot := undoStack[|undoStack| - 1];
      undoStack := undoStack[..|undoStack| - 1];
      redoStack := redoStack + [current];
      ApplySnapshot(snapshot);
    }

    /** `redo`: the mirror image of `undo`. */
    method Redo()
      requires Valid()
      modifies this`lines, this`cursor, this`selection, this`scrollTop, this`scrollLeft, this`documentVersion,
               this`undoStack, this`redoStack
      ensures Valid()
      ensures old(|redoStack|) == 0 ==> unchanged(this)
      ensures old(|redoStack|) > 0 ==>
                && redoStack == old(redoStack[..|redoStack| - 1])
                && undoStack == old(undoStack) + [old(CreateStateSnapshot())]
                && CreateStateSnapshot() == old(redoStack[|redoStack| - 1])
                && documentVersion == old(documentVersion) + 1
    {
      if |redoStack| == 0 {
        return;
      }
      var current := CreateStateSnapshot();
      var snapshot := redoStack[|redoStack| - 1];
      redoStack := redoStack[..|redoStack| - 1];
      undoStack := undoStack + [current];
      ApplySnapshot(snapshot);
    }

    /** Undo followed by redo restores the lines, caret, selection, scroll
        offsets and both stacks; only the version has moved on, by two. */
    method UndoThenRedo()
      requires Valid() && |undoStack| > 0
      modifies this`lines, this`cursor, this`selection, this`scrollTop, this`scrollLeft, this`documentVersion,
               this`undoStack, this`redoStack
      ensures Valid()
      ensures CreateStateSnapshot() == old(CreateStateSnapshot())
      ensures undoStack == old(undoStack) && redoStack == old(redoStack)
      ensures documentVersion == old(documentVersion) + 2
    {
      Undo();
      Redo();
    }

    // ----- selection -----

    /** `collapseSelectionWithoutHistory`: without a selection nothing
        happens; otherwise the selected text is removed (`CollapseRange`),
        the caret goes to the selection start and selection and anchor are
        dropped. */
    method CollapseSelectionWithoutHistory() returns (start: Option<Point>)
      requires Valid()
      modifies this`lines, this`cursor, this`selection, this`anchor, this`documentVersion
      ensures Valid()
      ensures old(selection).None? ==> start.None? && unchanged(this)
      ensures old(selection).Some? ==>
                && start == Some(NormalizeSelection(old(selection).value).start)
                && (lines, cursor) == Collapsed(old(lines), old(cursor), old(selection))
                && selection.None? && anchor.None?
                && documentVersion == old(documentVersion) + 1
    {
      start := None;
      if selection.Some? {
        var sel := selection.value;
        var s := NormalizeSelection(sel).start;
        CollapseRangeIds(lines, sel, nextId);
        lines := CollapseRange(lines, sel);
        MarkDocumentVersion();
        SetCursor(s.line, s.ch, true);
        selection := None;
        anchor := None;
        start := Some(s);
      }
    }

    /** `deleteSelection`: with a selection, record history and collapse it. */
    method DeleteSelection() returns (deleted: bool)
      requires Valid()
      modifies this`lines, this`cursor, this`selection, this`anchor, this`documentVersion, this`undoStack, this`redoStack
      ensures Valid()
      ensures deleted <==> old(selection).Some?
      ensures !deleted ==> unchanged(this)
      ensures deleted ==>
                && (lines, cursor) == Collapsed(old(lines), old(cursor), old(selection))
                && selection.None? && anchor.None?
                && Recorded()
                && documentVersion == old(documentVersion) + 1
    {
      if selection.None? {
        return false;
      }
      SaveHistory();
      var _ := CollapseSelectionWithoutHistory();
      return true;
    }

    /** `selectAll`: the selection spans the document and the caret sits at
        its end; the selection is kept. */
    method SelectAll()
      requires Valid()
      modifies this`cursor, this`selection, this`anchor
      ensures Valid()
      ensures var last := |lines| - 1;
              && selection == Some(Selection(Point(0, 0), Point(last, LineLength(lines[last]))))
              && cursor == Point(last, LineLength(lines[last]))
      ensures anchor == old(anchor)
    {
      var lastLineIndex := |lines| - 1;
      var lastChar := LineLength(lines[lastLineIndex]);
      selection := Some(Selection(Point(0, 0), Point(lastLineIndex, lastChar)));
      SetCursor(lastLineIndex, lastChar, false);
    }

    /** `getSelectedText`: "" without a selection, otherwise the selected
        span with line breaks as "\n". */
    method GetSelectedText() returns (text: string)
      requires DocValid(lines, cursor, selection)
      ensures selection.None? ==> text == ""
      ensures selection.Some? ==> text == SelectedText(lines, selection.value)
    {
      if selection.None? {
        return "";
      }
      var range := NormalizeSelection(selection.value);
      var s, e := range.start, range.end;
      assert PointIn(lines, s) && PointIn(lines, e) && s.line <= e.line;
      if s.line == e.line {
        return Slice(lines[s.line].text, s.ch, e.ch);
      }
      // the pushes of the middle lines, between the first piece and the last
      var middle := [];
      var i := s.line + 1;
      while i < e.line
        invariant s.line + 1 <= i <= e.line && middle == TextsBetween(lines, s.line + 1, i)
        decreases e.line - i
      {
        middle := middle + [lines[i].text];
        i := i + 1;
      }
      var parts := [SliceFrom(lines[s.line].text, s.ch)] + middle + [Slice(lines[e.line].text, 0, e.ch)];
      return Join(parts, '\n');
    }

    // ----- inserting -----

    /** The opening every insertion shares: `saveHistory`, then
        `collapseSelectionWithoutHistory` when there is a selection. */
    method RecordAndCollapse()
      requires Valid()
      modifies this`lines, this`cursor, this`selection, this`anchor, this`documentVersion, this`undoStack, this`redoStack
      ensures Valid()
      ensures (lines, cursor) == Collapsed(old(lines), old(cursor), old(selection))
      ensures selection.None? && anchor == (if old(selection).Some? then None else old(anchor))
      ensures Recorded()
      ensures documentVersion == old(documentVersion) + CollapseBump(old(selection))
    {
      SaveHistory();
      if selection.Some? {
        var _ := CollapseSelectionWithoutHistory();
      }
    }

    /** The text-line branch of `insertText`: the caret line keeps its head
        and the first piece; every further "\n"-piece becomes a new line with
        the line's indent, the last one carrying the old tail. */
    method SpliceTextAtCaret(text: string)
      requires PointIn(lines, cursor) && lines[cursor.line].kind.Text?
      modifies this`lines, this`nextId
      ensures lines == InsertTextLines(old(lines), cursor, text, old(nextId))
      ensures nextId == old(nextId) + (|Split(text, '\n')| - 1)
    {
      var c := cursor;
      var line := lines[c.line];
      var tail := SliceFrom(line.text, c.ch);
      var head := Slice(line.text, 0, c.ch);
      var parts := Split(text, '\n');
      if |parts| == 1 {
        lines := lines[c.line := line.(text := head + text + tail)];
        UpdateIsSplice(old(lines), c.line, line.(text := head + text + tail));
      } else {
        SplicePiecesAtCaret(parts, head, tail);
      }
    }

    /** The loop of the text-line branch of `insertText`, for two or more pieces. */
    method SplicePiecesAtCaret(parts: seq<string>, head: string, tail: string)
      requires cursor.line < |lines| && |parts| >= 2
      modifies this`lines, this`nextId
      ensures lines == old(lines)[..cursor.line] + PiecesBlock(old(lines)[cursor.line], head, tail, parts, old(nextId))
                       + old(lines)[cursor.line + 1..]
      ensures nextId == old(nextId) + (|parts| - 1)
    {
      var c := cursor;
      var line := lines[c.line];
      ghost var base, firstId := lines, nextId;
      var first := line.(text := head + parts[0]);
      ghost var rest := RestWithTail(parts, tail);
      ghost var pre, post := base[..c.line] + [first], base[c.line + 1..];
      lines := lines[c.line := first];
      UpdateIsSplice(base, c.line, first);
      ghost var built: seq<Line> := [];
      var insertIndex := c.line + 1;
      var i := 1;
      while i < |parts|
        invariant 1 <= i <= |parts| && |built| == i - 1
        invariant insertIndex == |pre| + |built| && nextId == firstId + |built|
        invariant forall k :: 0 <= k < |built| ==> built[k] == Line(firstId + k, Text, rest[k], line.indent, false)
        invariant lines == pre + built + post
      {
        var part := parts[i];
        var newLineText := if i == |parts| - 1 then part + tail else part;
        var newLine := CreateLine(Text, newLineText, line.indent);
        SpliceInsert(insertIndex, newLine, pre, built, post);
        built := built + [newLine];
        insertIndex := insertIndex + 1;
        i := i + 1;
      }
      assert built == NewTextLines(rest, line.indent, firstId);
    }

    /** The loop of the image-line branch: one new text line per piece, each
        inserted behind the previous one. */
    method InsertPiecesAt(insertIndex: nat, parts: seq<string>, indent: nat)
      requires insertIndex <= |lines|
      modifies this`lines, this`nextId
      ensures lines == old(lines)[..insertIndex] + NewTextLines(parts, indent, old(nextId)) + old(lines)[insertIndex..]
      ensures nextId == old(nextId) + |parts|
    {
      ghost var firstId := nextId;
      ghost var pre, post := lines[..insertIndex], lines[insertIndex..];
      ghost var built: seq<Line> := [];
      var at := insertIndex;
      var i := 0;
      while i < |parts|
        invariant 0 <= i <= |parts| && |built| == i
        invariant at == |pre| + |built| && nextId == firstId + |built|
        invariant forall k :: 0 <= k < |built| ==> built[k] == Line(firstId + k, Text, parts[k], indent, false)
        invariant lines == pre + built + post
      {
        var newLine := CreateLine(Text, parts[i], indent);
        SpliceInsert(at, newLine, pre, built, post);
        built := built + [newLine];
        at := at + 1;
        i := i + 1;
      }
      assert built == NewTextLines(parts, indent, firstId);
    }

    /** The body of `insertText` once history is recorded and the selection
        collapsed: splice the text in, bump the version, put the caret behind
        the inserted text. */
    method SpliceText(text: string)
      requires |lines| >= 1 && PointIn(lines, cursor) && UniqueIds(lines) && IdsBelow(lines, nextId)
      modifies this`lines, this`cursor, this`selection, this`anchor, this`documentVersion, this`nextId
      ensures TextSpliced(text)
      ensures nextId >= old(nextId)
      ensures |lines| >= 1 && PointIn(lines, cursor) && UniqueIds(lines) && IdsBelow(lines, nextId)
    {
      InsertTextPlacesCaret(lines, cursor, text, nextId);
      InsertTextIds(lines, cursor, text, nextId);
      if lines[cursor.line].kind.Image? {
        SpliceTextBesideImageLine(text);
      } else {
        SpliceTextIntoLine(text);
      }
    }

    /** The state after the splice of `insertText`: the lines are
        `InsertTextLines`, the caret is at `InsertTextCaret`, the selection is
        gone, one id was used per new line and the version moved. */
    twostate predicate TextSpliced(text: string)
      requires PointIn(old(lines), old(cursor))
      reads this
    {
      && lines == InsertTextLines(old(lines), old(cursor), text, old(nextId))
      && cursor == InsertTextCaret(old(lines), old(cursor), text)
      && selection.None? && anchor.None?
      && nextId == old(nextId) + (|lines| - |old(lines)|)
      && documentVersion == old(documentVersion) + 1
    }

    /** The image-line branch of the splice, with the caret placement. */
    method SpliceTextBesideImageLine(text: string)
      requires PointIn(lines, cursor) && lines[cursor.line].kind.Image?
      modifies this`lines, this`cursor, this`selection, this`anchor, this`documentVersion, this`nextId
      ensures TextSpliced(text)
    {
      ghost var base, firstId := lines, nextId;
      var c := cursor;
      ghost var target := InsertTextCaret(base, c, text);
      var indent := lines[c.line].indent;
      var parts := Split(NormalizeNewlines(text), '\n');
      var insertIndex := ImageInsertIndex(c);
      InsertPiecesAt(insertIndex, parts, indent);
      assert lines == InsertTextLines(base, c, text, firstId);
      var lastPart := parts[|parts| - 1];
      assert target == Point(insertIndex + |parts| - 1, |lastPart|);
      MarkDocumentVersion();
      SetCursor(insertIndex + |parts| - 1, |lastPart|, true);
    }

    /** The text-line branch of the splice, with the caret placement. */
    method SpliceTextIntoLine(text: string)
      requires PointIn(lines, cursor) && lines[cursor.line].kind.Text?
      modifies this`lines, this`cursor, this`selection, this`anchor, this`documentVersion, this`nextId
      ensures TextSpliced(text)
    {
      ghost var base, firstId := lines, nextId;
      var c := cursor;
      InsertTextPlacesCaret(base, c, text, firstId);
      var parts := Split(text, '\n');
      SpliceTextAtCaret(text);
      MarkDocumentVersion();
      if |parts| == 1 {
        SetCursor(c.line, c.ch + |text|, true);
      } else {
        SetCursor(c.line + |parts| - 1, |parts[|parts| - 1]|, true);
      }
    }

    /** `insertText`: nothing for "", otherwise record history, collapse the
        selection, splice the text in (`InsertTextLines`) and put the caret
        behind it (`InsertTextCaret`). */
    method InsertText(text: string)
      requires Valid()
      modifies this`lines, this`cursor, this`selection, this`anchor, this`documentVersion,
               this`undoStack, this`redoStack, this`nextId
      ensures Valid()
      ensures text == "" ==> unchanged(this)
      ensures text != "" ==>
                var c := Collapsed(old(lines), old(cursor), old(selection));
                && lines == InsertTextLines(c.0, c.1, text, old(nextId))
                && cursor == InsertTextCaret(c.0, c.1, text)
                && selection.None? && anchor.None?
                && nextId == old(nextId) + (|lines| - |c.0|)
                && Recorded()
                && documentVersion == old(documentVersion) + 1 + CollapseBump(old(selection))
    {
      if text == "" {
        return;
      }
      RecordAndCollapse();
      ghost var firstId := nextId;
      SpliceText(text);
      StackGrows(undoStack, firstId, nextId);
    }

    /** The body of `insertImageLine` once history is recorded and the
        selection collapsed. */
    method PlaceImage(data: ImageData)
      requires |lines| >= 1 && PointIn(lines, cursor) && UniqueIds(lines) && IdsBelow(lines, nextId)
      modifies this`lines, this`cursor, this`selection, this`anchor, this`documentVersion, this`nextId
      ensures lines == ImageLines(old(lines), old(cursor), data, old(nextId))
      ensures cursor == ImageCaret(old(lines), old(cursor))
      ensures selection.None? && anchor.None?
      ensures nextId == old(nextId) + ImageIdCount(old(lines), old(cursor))
      ensures |lines| >= 1 && PointIn(lines, cursor) && UniqueIds(lines) && IdsBelow(lines, nextId)
      ensures documentVersion == old(documentVersion) + 1
    {
      ImagePlacement(lines, cursor, data, nextId);
      ImageLinesIds(lines, cursor, data, nextId);
      var target := InsertImageAtCaret(data);
      SetCursor(target.line, target.ch, true);
    }

    /** The edit of `insertImageLine` at the caret: the empty text line
        becomes the image, a text line is cut around it, next to an image the
        new one goes in front or behind; `target` is where the caret goes. */
    method InsertImageAtCaret(data: ImageData) returns (target: Point)
      requires PointIn(lines, cursor)
      modifies this`lines, this`documentVersion, this`nextId
      ensures lines == ImageLines(old(lines), cursor, data, old(nextId))
      ensures target == ImageCaret(old(lines), cursor)
      ensures nextId == old(nextId) + ImageIdCount(old(lines), cursor)
      ensures documentVersion == old(documentVersion) + 1
    {
      var c := cursor;
      var currentLine := lines[c.line];
      if currentLine.kind.Text? {
        var head := Slice(currentLine.text, 0, c.ch);
        var tail := SliceFrom(currentLine.text, c.ch);
        if |head| == 0 && |tail| == 0 {
          var imageLine := CreateLine(Image(data), "", currentLine.indent);
          UpdateIsSplice(lines, c.line, imageLine);
          lines := lines[..c.line] + [imageLine] + lines[c.line + 1..];
          MarkDocumentVersion();
          return Point(c.line, LineLength(imageLine));
        }
        var hasTail := CutLineForImage(data);
        MarkDocumentVersion();
        if hasTail {
          target := Point(c.line + 2, 0);
        } else {
          target := Point(c.line + 1, 1);
        }
      } else {
        var insertIndex := ImageInsertIndex(c);
        var imageLine := CreateLine(Image(data), "", currentLine.indent);
        lines := lines[..insertIndex] + [imageLine] + lines[insertIndex..];
        MarkDocumentVersion();
        target := Point(insertIndex, LineLength(imageLine));
      }
    }

    /** The cut of a non-empty text line in `insertImageLine`: the line keeps
        its head, the image line follows, and the tail, when there is one,
        follows on a line of its own (created first, so it takes the first id). */
    method CutLineForImage(data: ImageData) returns (hasTail: bool)
      requires |lines| >= 1 && PointIn(lines, cursor) && lines[cursor.line].kind.Text? && |lines[cursor.line].text| > 0
      modifies this`lines, this`nextId
      ensures lines == ImageLines(old(lines), cursor, data, old(nextId))
      ensures hasTail <==> ImageIdCount(old(lines), cursor) == 2
      ensures nextId == old(nextId) + ImageIdCount(old(lines), cursor)
    {
      ghost var base, firstId := lines, nextId;
      var c := cursor;
      var currentLine := lines[c.line];
      var head := Slice(currentLine.text, 0, c.ch);
      var tail := SliceFrom(currentLine.text, c.ch);
      var x := currentLine.(text := head);
      lines := lines[c.line := x];
      UpdateIsSplice(base, c.line, x);
      AroundElement(base[..c.line], x, base[c.line + 1..]);
      var tailLine: Option<Line> := None;
      if |tail| > 0 {
        var t := CreateLine(Text, tail, currentLine.indent);
        tailLine := Some(t);
      }
      var insertIndex := c.line + 1;
      var imageLine := CreateLine(Image(data), "", currentLine.indent);
      lines := lines[..insertIndex] + [imageLine] + lines[insertIndex..];
      if tailLine.Some? {
        AroundElement(base[..c.line] + [x], imageLine, base[c.line + 1..]);
        lines := lines[..insertIndex + 1] + [tailLine.value] + lines[insertIndex + 1..];
        assert lines == base[..c.line] + [x, imageLine, tailLine.value] + base[c.line + 1..];
      } else {
        assert lines == base[..c.line] + [x, imageLine] + base[c.line + 1..];
      }
      hasTail := tailLine.Some?;
    }

    /** `insertImageLine`: nothing without image data or source; otherwise
        record history, collapse the selection and insert the image line
        (`ImageLines`), the caret behind it or at the start of the cut-off
        tail (`ImageCaret`). */
    method InsertImageLine(imageData: Option<ImageData>)
      requires Valid()
      modifies this`lines, this`cursor, this`selection, this`anchor, this`documentVersion,
               this`undoStack, this`redoStack, this`nextId
      ensures Valid()
      ensures imageData.None? || imageData.value.src == "" ==> unchanged(this)
      ensures imageData.Some? && imageData.value.src != "" ==>
                var c := Collapsed(old(lines), old(cursor), old(selection));
                && lines == ImageLines(c.0, c.1, imageData.value, old(nextId))
                && cursor == ImageCaret(c.0, c.1)
                && selection.None? && anchor.None?
                && nextId == old(nextId) + ImageIdCount(c.0, c.1)
                && Recorded()
                && documentVersion == old(documentVersion) + 1 + CollapseBump(old(selection))
    {
      if imageData.None? || imageData.value.src == "" {
        return;
      }
      RecordAndCollapse();
      ghost var firstId := nextId;
      PlaceImage(imageData.value);
      StackGrows(undoStack, firstId, nextId);
    }

    /** The body of `insertLineBreak` once history is recorded and the
        selection collapsed. */
    method SplitLine(indentOverride: Option<nat>)
      requires |lines| >= 1 && PointIn(lines, cursor) && UniqueIds(lines) && IdsBelow(lines, nextId)
      modifies this`lines, this`cursor, this`selection, this`anchor, this`documentVersion, this`nextId
      ensures lines == LineBreakLines(old(lines), old(cursor), indentOverride, old(nextId))
      ensures cursor == LineBreakCaret(old(lines), old(cursor))
      ensures selection.None? && anchor.None?
      ensures nextId == old(nextId) + 1
      ensures |lines| >= 1 && PointIn(lines, cursor) && UniqueIds(lines) && IdsBelow(lines, nextId)
      ensures documentVersion == old(documentVersion) + 1
    {
      LineBreakCaretIn(lines, cursor, indentOverride, nextId);
      LineBreakIds(lines, cursor, indentOverride, nextId);
      var line := lines[cursor.line];
      var newIndent := if indentOverride.Some? then indentOverride.value else line.indent;
      if line.kind.Image? {
        var insertIndex := ImageInsertIndex(cursor);
        var newLine := CreateLine(Text, "", newIndent);
        InsertLineAt(insertIndex, newLine);
        MarkDocumentVersion();
        SetCursor(insertIndex, 0, true);
      } else {
        BreakTextLine(newIndent);
        MarkDocumentVersion();
        SetCursor(cursor.line + 1, 0, true);
      }
    }

    /** The text-line part of `insertLineBreak`: the head stays, the tail
        moves to a new line with indent `newIndent`. */
    method BreakTextLine(newIndent: nat)
      requires PointIn(lines, cursor) && lines[cursor.line].kind.Text?
      modifies this`lines, this`nextId
      ensures var l := old(lines)[cursor.line];
              lines == old(lines)[..cursor.line]
                       + [l.(text := Slice(l.text, 0, cursor.ch)), Line(old(nextId), Text, SliceFrom(l.text, cursor.ch), newIndent, false)]
                       + old(lines)[cursor.line + 1..]
      ensures nextId == old(nextId) + 1
    {
      ghost var base := lines;
      var c := cursor;
      var line := lines[c.line];
      var tail := SliceFrom(line.text, c.ch);
      var head := Slice(line.text, 0, c.ch);
      lines := lines[c.line := line.(text := head)];
      var newLine := CreateLine(Text, tail, newIndent);
      UpdateIsSplice(base, c.line, line.(text := head));
      ghost var pre, post := base[..c.line] + [line.(text := head)], base[c.line + 1..];
      assert lines == pre + [] + post;
      SpliceInsert(c.line + 1, newLine, pre, [], post);
    }

    /** `insertLineBreak`: record history, collapse the selection and split
        the caret line (`LineBreakLines`); the new line takes the override
        indent when one is given. */
    method InsertLineBreak(indentOverride: Option<nat>)
      requires Valid()
      modifies this`lines, this`cursor, this`selection, this`anchor, this`documentVersion,
               this`undoStack, this`redoStack, this`nextId
      ensures Valid()
      ensures var c := Collapsed(old(lines), old(cursor), old(selection));
              && lines == LineBreakLines(c.0, c.1, indentOverride, old(nextId))
              && cursor == LineBreakCaret(c.0, c.1)
              && selection.None? && anchor.None?
              && nextId == old(nextId) + 1
              && Recorded()
              && documentVersion == old(documentVersion) + 1 + CollapseBump(old(selection))
    {
      RecordAndCollapse();
      ghost var firstId := nextId;
      SplitLine(indentOverride);
      StackGrows(undoStack, firstId, nextId);
    }

    /** The text-line part of `insertBracketPair`: `inner` wrapped in "[" "]"
        at the caret, the caret `advance` units further. */
    method WrapAtCaret(inner: string, advance: nat)
      requires |lines| >= 1 && PointIn(lines, cursor) && lines[cursor.line].kind.Text?
      requires UniqueIds(lines) && IdsBelow(lines, nextId)
      requires advance <= |inner| + 2
      modifies this`lines, this`cursor, this`selection, this`anchor, this`documentVersion
      ensures lines == BracketLines(old(lines), old(cursor), inner)
      ensures cursor == Point(old(cursor).line, old(cursor).ch + advance)
      ensures selection.None? && anchor.None?
      ensures |lines| >= 1 && PointIn(lines, cursor) && UniqueIds(lines) && IdsBelow(lines, nextId)
      ensures documentVersion == old(documentVersion) + 1
    {
      var c := cursor;
      ghost var base := lines;
      lines := BracketLines(lines, c, inner);
      SameIds(base, lines, nextId);
      MarkDocumentVersion();
      SetCursor(c.line, c.ch + advance, true);
    }

    /** `insertBracketPair`: history is recorded in every case. With a
        selection, the selected text is cut and put back between "[" and
        "]", the caret behind the "]"; without one, "[]" is inserted with the
        caret between. On an image line the text is left alone. */
    method InsertBracketPair()
      requires Valid()
      modifies this`lines, this`cursor, this`selection, this`anchor, this`documentVersion,
               this`undoStack, this`redoStack
      ensures Valid()
      ensures Recorded()
      ensures var c := Collapsed(old(lines), old(cursor), old(selection));
              var inner := if old(selection).Some? then SelectedText(old(lines), old(selection).value) else "";
              && (c.0[c.1.line].kind.Image? ==>
                    && lines == c.0 && cursor == c.1 && selection.None?
                    && anchor == (if old(selection).Some? then None else old(anchor))
                    && documentVersion == old(documentVersion) + CollapseBump(old(selection)))
              && (c.0[c.1.line].kind.Text? ==>
                    && lines == BracketLines(c.0, c.1, inner)
                    && cursor == Point(c.1.line, c.1.ch + if old(selection).Some? then |inner| + 2 else 1)
                    && selection.None? && anchor.None?
                    && documentVersion == old(documentVersion) + 1 + CollapseBump(old(selection)))
    {
      var extracted := GetSelectedText();
      var hadSelection := selection.Some?;
      RecordAndCollapse();
      if lines[cursor.line].kind.Image? {
        return;
      }
      WrapAtCaret(extracted, if hadSelection then |extracted| + 2 else 1);
    }

    // ----- tree queries -----

    /** `getDescendantEnd`: the scan for the first following line that is
        not deeper. */
    method GetDescendantEnd(lineIndex: nat) returns (r: nat)
      requires lineIndex < |lines|
      ensures r == DescendantEnd(lines, lineIndex)
    {
      var baseIndent := lines[lineIndex].indent;
      r := lineIndex + 1;
      while r < |lines| && lines[r].indent > baseIndent
        invariant lineIndex < r <= |lines|
        invariant DeeperRunEnd(lines, baseIndent, r) == DescendantEnd(lines, lineIndex)
        decreases |lines| - r
      {
        r := r + 1;
      }
    }

    /** `getParent`: the backwards scan for a shallower line. */
    method GetParent(lineIndex: nat) returns (r: Option<nat>)
      requires lineIndex < |lines|
      ensures r == Parent(lines, lineIndex)
    {
      var indent := lines[lineIndex].indent;
      var i: int := lineIndex as int - 1;
      while i >= 0
        invariant -1 <= i < lineIndex
        invariant ShallowerBefore(lines, indent, i) == Parent(lines, lineIndex)
        decreases i + 1
      {
        if lines[i].indent < indent {
          return Some(i);
        }
        i := i - 1;
      }
      return None;
    }

    /** `hasChildren`: the next line is deeper. */
    method HasChildrenAt(lineIndex: nat) returns (b: bool)
      requires lineIndex < |lines|
      ensures b == HasChildren(lines, lineIndex)
    {
      var next := lineIndex + 1;
      if next >= |lines| {
        return false;
      }
      return lines[next].indent > lines[lineIndex].indent;
    }

    /** `isVisible`: walk the parent chain until a collapsed ancestor or the
        top is found. */
    method IsVisibleAt(lineIndex: nat) returns (b: bool)
      requires lineIndex < |lines|
      ensures b == IsVisible(lines, lineIndex)
    {
      var current: nat := lineIndex;
      while current > 0
        invariant current < |lines|
        invariant IsVisible(lines, current) == IsVisible(lines, lineIndex)
        decreases current
      {
        var parent := GetParent(current);
        if parent.None? {
          break;
        }
        if lines[parent.value].collapsed {
          return false;
        }
        current := parent.value;
      }
      return true;
    }

    /** `getVisibleLines`: the indices of the visible lines, in order
        (`VisibleIndicesSpec`). */
    method GetVisibleLines() returns (r: seq<nat>)
      ensures r == VisibleIndices(lines, |lines|)
    {
      r := [];
      var index := 0;
      while index < |lines|
        invariant index <= |lines| && r == VisibleIndices(lines, index)
      {
        var visible := IsVisibleAt(index);
        if visible {
          r := r + [index];
        }
        index := index + 1;
      }
    }

    // ----- indentation and collapse -----

    /** `changeIndent`: with no line range (asked for the selection and there
        is none) nothing happens; otherwise history is recorded and the lines
        of the range, or with `includeChildren` the blocks headed inside it,
        get indent max(0, indent + delta). */
    method ChangeIndent(delta: int, applyToSelection: bool, includeChildren: bool)
      requires Valid()
      modifies this`lines, this`documentVersion, this`undoStack, this`redoStack
      ensures Valid()
      ensures IndentRange(old(selection), old(cursor), applyToSelection).None? ==> unchanged(this)
      ensures IndentRange(old(selection), old(cursor), applyToSelection).Some? ==>
                var range := IndentRange(old(selection), old(cursor), applyToSelection).value;
                && range.start < |old(lines)|
                && lines == Reindent(old(lines), range.start, IndentEnd(old(lines), range, includeChildren), delta)
                && Recorded()
                && documentVersion == old(documentVersion) + 1
    {
      var r := IndentRange(selection, cursor, applyToSelection);
      if r.None? {
        return;
      }
      var range := r.value;
      assert range.start < |lines| && range.start <= range.end;
      ghost var base := lines;
      ghost var hi := IndentEnd(base, range, includeChildren);
      ReindentSameShape(base, range.start, hi, delta);
      SameShapeKeepsDoc(base, Reindent(base, range.start, hi, delta), cursor, selection, nextId);
      SaveHistory();
      IndentLines(range, delta, includeChildren);
      MarkDocumentVersion();
    }

    /** The loops of `changeIndent`: with `includeChildren` the walk from
        block head to block end, reindenting each block; otherwise the lines
        of the range that exist. */
    method IndentLines(range: LineRange, delta: int, includeChildren: bool)
      requires range.start <= range.end && range.start < |lines|
      modifies this`lines
      ensures lines == Reindent(old(lines), range.start, IndentEnd(old(lines), range, includeChildren), delta)
    {
      ghost var base := lines;
      if includeChildren {
        var index := range.start;
        while index <= range.end && index < |lines|
          invariant range.start <= index <= |base| && lines == Reindent(base, range.start, index, delta)
          invariant BlockChainEnd(base, index, range.end) == BlockChainEnd(base, range.start, range.end)
          decreases |base| - index
        {
          ReindentKeepsBlocksBelow(base, range.start, index, delta);
          var blockEnd := GetDescendantEnd(index);
          ReindentRange(index, blockEnd, delta);
          ReindentConcat(base, range.start, index, blockEnd, delta);
          index := blockEnd;
        }
      } else {
        var end := if range.end + 1 <= |lines| then range.end + 1 else |lines|;
        ReindentRange(range.start, end, delta);
        ReindentConcat(base, range.start, range.start, end, delta);
      }
    }

    /** `for (let i = lo; i < hi; i += 1) line.indent = Math.max(0, line.indent + delta)` */
    method ReindentRange(lo: nat, hi: nat, delta: int)
      requires lo <= hi <= |lines|
      modifies this`lines
      ensures lines == Reindent(old(lines), lo, hi, delta)
    {
      ghost var base := lines;
      var i := lo;
      while i < hi
        invariant lo <= i <= hi && lines == Reindent(base, lo, i, delta)
      {
        ReindentStep(base, lo, i, delta);
        lines := lines[i := lines[i].(indent := Max(0, lines[i].indent + delta))];
        i := i + 1;
      }
    }

    /** `line.collapsed = !line.collapsed` */
    method FlipCollapsed(lineIndex: nat)
      requires lineIndex < |lines|
      modifies this`lines
      ensures lines == ToggleLines(old(lines), lineIndex)
    {
      var line := lines[lineIndex];
      lines := lines[lineIndex := line.(collapsed := !line.collapsed)];
    }

    /** The state after `toggleCollapse(lineIndex)` flipped the line: the
        lines are `ToggleLines`, history was recorded, and when the line is
        now collapsed and hides the caret line, the caret moved onto it and
        the selection was dropped. */
    twostate predicate Toggled(lineIndex: nat)
      requires lineIndex < |old(lines)|
      reads this
    {
      && lines == ToggleLines(old(lines), lineIndex)
      && Recorded() && documentVersion == old(documentVersion) && nextId == old(nextId)
      && |lines| == |old(lines)| && old(cursor).line < |lines|
      && (if lines[lineIndex].collapsed && !IsVisible(lines, old(cursor).line)
          then cursor == ClampPoint(lines, lineIndex, Min(old(cursor).ch, LineLength(lines[lineIndex])))
               && selection.None? && anchor.None?
          else cursor == old(cursor) && selection == old(selection) && anchor == old(anchor))
    }

    /** `toggleCollapse`: nothing unless the line has children; otherwise
        history is recorded, only the collapsed flag flips, and when
        collapsing hides the caret line the caret moves to the toggled line.
        The version counter does not move. */
    method ToggleCollapse(lineIndex: nat)
      requires Valid()
      modifies this`lines, this`cursor, this`selection, this`anchor, this`undoStack, this`redoStack
      ensures Valid()
      ensures !(lineIndex < |old(lines)| && HasChildren(old(lines), lineIndex)) ==> unchanged(this)
      ensures lineIndex < |old(lines)| && HasChildren(old(lines), lineIndex) ==> Toggled(lineIndex)
    {
      if lineIndex >= |lines| {
        return;
      }
      var hasChildren := HasChildrenAt(lineIndex);
      if !hasChildren {
        return;
      }
      ToggleLine(lineIndex);
    }

    /** The flip itself, with history and the caret adjustment. */
    method ToggleLine(lineIndex: nat)
      requires Valid() && lineIndex < |lines|
      modifies this`lines, this`cursor, this`selection, this`anchor, this`undoStack, this`redoStack
      ensures Valid() && Toggled(lineIndex)
    {
      ghost var base := lines;
      SameShapeKeepsDoc(base, ToggleLines(base, lineIndex), cursor, selection, nextId);
      SaveHistory();
      FlipCollapsed(lineIndex);
      RevealCaret(lineIndex);
    }

    /** The end of `toggleCollapse`: when the line is now collapsed and the
        caret line is hidden, the caret moves onto the toggled line. */
    method RevealCaret(lineIndex: nat)
      requires lineIndex < |lines| && PointIn(lines, cursor)
      modifies this`cursor, this`selection, this`anchor
      ensures DocValid(lines, old(cursor), old(selection)) ==> DocValid(lines, cursor, selection)
      ensures if lines[lineIndex].collapsed && !IsVisible(lines, old(cursor).line)
              then cursor == ClampPoint(lines, lineIndex, Min(old(cursor).ch, LineLength(lines[lineIndex])))
                   && selection.None? && anchor.None?
              else cursor == old(cursor) && selection == old(selection) && anchor == old(anchor)
    {
      if lines[lineIndex].collapsed {
        var visible := IsVisibleAt(cursor.line);
        if !visible {
          SetCursor(lineIndex, Min(cursor.ch, LineLength(lines[lineIndex])), true);
        }
      }
    }

    // ----- Backspace and Delete -----

    /** The state after a Backspace or Delete press without a selection,
        relative to the state before it, for the effect `e`; `freshIds` is the
        number of ids the press used up. */
    twostate predicate KeyApplied(e: KeyEffect, freshIds: nat)
      reads this
    {
      match e
      case Unchanged => unchanged(this)
      case Outdent =>
        && lines == Reindent(old(lines), old(cursor).line, old(cursor).line + 1, -1)
        && cursor == old(cursor) && selection == old(selection) && anchor == old(anchor)
        && Recorded() && documentVersion == old(documentVersion) + 1 && nextId == old(nextId)
      case Rewrite(r, c) =>
        && lines == r && selection.None?
        && (c.Some? ==> cursor == c.value && anchor.None?)
        && (c.None? ==> cursor == old(cursor) && anchor == old(anchor))
        && Recorded() && documentVersion == old(documentVersion) + 1 && nextId == old(nextId) + freshIds
    }

    /** The shared tail of most Backspace and Delete edits: record history,
        install the new lines, bump the version and, when a caret is given,
        place it there (which drops selection and anchor). */
    method ApplyKeyEdit(r: seq<Line>, caret: Option<Point>)
      requires Valid() && selection.None?
      requires |r| >= 1 && UniqueIds(r) && IdsBelow(r, nextId)
      requires PointIn(r, if caret.Some? then caret.value else cursor)
      modifies this`lines, this`cursor, this`selection, this`anchor, this`documentVersion, this`undoStack, this`redoStack
      ensures Valid() && KeyApplied(Rewrite(r, caret), 0)
    {
      SaveHistory();
      lines := r;
      MarkDocumentVersion();
      if caret.Some? {
        SetCursor(caret.value.line, caret.value.ch, true);
      }
    }

    /** `lines.splice(index, 1)` as a recorded edit, then the caret, if
        given, placed. */
    method RemoveLineAt(index: nat, caret: Option<Point>)
      requires Valid() && selection.None? && index < |lines| && |lines| >= 2
      requires PointIn(RemoveLine(lines, index), if caret.Some? then caret.value else cursor)
      modifies this`lines, this`cursor, this`selection, this`anchor, this`documentVersion, this`undoStack, this`redoStack
      ensures Valid() && KeyApplied(Rewrite(RemoveLine(old(lines), index), caret), 0)
    {
      RemoveRangeIds(lines, index, index + 1, nextId);
      ApplyKeyEdit(lines[..index] + lines[index + 1..], caret);
    }

    /** A recorded rewrite of the text of line `index`, then the caret, if
        given, placed. */
    method SetLineText(index: nat, text: string, caret: Option<Point>)
      requires Valid() && selection.None? && index < |lines|
      requires var r := lines[index := lines[index].(text := text)];
               PointIn(r, if caret.Some? then caret.value else cursor)
      modifies this`lines, this`cursor, this`selection, this`anchor, this`documentVersion, this`undoStack, this`redoStack
      ensures Valid() && KeyApplied(Rewrite(old(lines)[index := old(lines)[index].(text := text)], caret), 0)
    {
      SameIds(lines, lines[index := lines[index].(text := text)], nextId);
      ApplyKeyEdit(lines[index := lines[index].(text := text)], caret);
    }

    /** `changeIndent(-1)` on the caret line, as Backspace does it. */
    method OutdentCaretLine()
      requires Valid() && selection.None?
      modifies this`lines, this`documentVersion, this`undoStack, this`redoStack
      ensures Valid() && KeyApplied(Outdent, 0)
    {
      ChangeIndent(-1, false, false);
    }

    /** `handleBackspace`: a selection is deleted; otherwise the effect is
        `BackspaceEffect` (nothing, an outdent of the caret line by one, or
        new lines and caret). */
    method HandleBackspace()
      requires Valid()
      modifies this`lines, this`cursor, this`selection, this`anchor, this`documentVersion, this`undoStack, this`redoStack
      ensures Valid()
      ensures old(selection).Some? ==>
                && (lines, cursor) == Collapsed(old(lines), old(cursor), old(selection))
                && selection.None? && anchor.None? && Recorded()
                && documentVersion == old(documentVersion) + 1
      ensures old(selection).None? ==> KeyApplied(BackspaceEffect(old(lines), old(cursor)), 0)
    {
      var deleted := DeleteSelection();
      if !deleted {
        BackspaceAtCaret();
      }
    }

    /** `handleBackspace` once it is known that there is no selection. */
    method BackspaceAtCaret()
      requires Valid() && selection.None?
      modifies this`lines, this`cursor, this`selection, this`anchor, this`documentVersion, this`undoStack, this`redoStack
      ensures Valid() && KeyApplied(BackspaceEffect(old(lines), old(cursor)), 0)
    {
      var line := lines[cursor.line];
      if line.kind.Image? {
        BackspaceOnImage();
      } else if cursor.ch > 0 {
        var c := cursor;
        SetLineText(c.line, Slice(line.text, 0, c.ch - 1) + SliceFrom(line.text, c.ch), Some(Point(c.line, c.ch - 1)));
      } else {
        BackspaceAtTextStart();
      }
    }

    /** Backspace on an image line: outdent it when the caret is in front of
        an indented image, otherwise remove it and put the caret at the end
        of the line above. */
    method BackspaceOnImage()
      requires Valid() && selection.None? && lines[cursor.line].kind.Image?
      modifies this`lines, this`cursor, this`selection, this`anchor, this`documentVersion, this`undoStack, this`redoStack
      ensures Valid() && KeyApplied(BackspaceEffect(old(lines), old(cursor)), 0)
    {
      var c := cursor;
      BackspaceShape(lines, c);
      var line := lines[c.line];
      if c.ch == 0 && line.indent > 0 {
        OutdentCaretLine();
        return;
      }
      if c.line == 0 {
        return;
      }
      var targetIndex := Max(0, c.line - 1);
      RemoveLineAt(c.line, Some(Point(targetIndex, LineLength(lines[targetIndex]))));
    }

    /** Backspace at the start of a text line: remove an image line above,
        else outdent, else merge into the line above. */
    method BackspaceAtTextStart()
      requires Valid() && selection.None? && lines[cursor.line].kind.Text? && cursor.ch == 0
      modifies this`lines, this`cursor, this`selection, this`anchor, this`documentVersion, this`undoStack, this`redoStack
      ensures Valid() && KeyApplied(BackspaceEffect(old(lines), old(cursor)), 0)
    {
      var c := cursor;
      BackspaceShape(lines, c);
      var line := lines[c.line];
      if c.line > 0 {
        var previousIndex := c.line - 1;
        var previousLine := lines[previousIndex];
        if previousLine.kind.Image? {
          RemoveLineAt(previousIndex, Some(Point(previousIndex, 0)));
          return;
        }
      }
      if line.indent > 0 {
        OutdentCaretLine();
        return;
      }
      if c.line == 0 {
        return;
      }
      BackspaceIds(lines, c, nextId);
      MergeIntoPrevious();
    }

    /** The last branch of `handleBackspace`: the caret line's text goes onto
        the previous text line and the caret line is removed (the splice count
        is one whether or not the line has children). */
    method MergeIntoPrevious()
      requires Valid() && selection.None? && 0 < cursor.line
      requires var r := MergeWithPrevious(lines, cursor.line);
               && UniqueIds(r) && IdsBelow(r, nextId) && PointIn(r, Point(cursor.line - 1, LineLength(lines[cursor.line - 1])))
      modifies this`lines, this`cursor, this`selection, this`anchor, this`documentVersion, this`undoStack, this`redoStack
      ensures Valid()
      ensures KeyApplied(Rewrite(MergeWithPrevious(old(lines), old(cursor).line),
                                 Some(Point(old(cursor).line - 1, LineLength(old(lines)[old(cursor).line - 1])))), 0)
    {
      var c := cursor;
      SaveHistory();
      var prevLineIndex := c.line - 1;
      var prevLength := LineLength(lines[prevLineIndex]);
      MergePreviousLines(c.line);
      MarkDocumentVersion();
      SetCursor(prevLineIndex, prevLength, true);
    }

    /** The line edits of that branch. */
    method MergePreviousLines(i: nat)
      requires 0 < i < |lines|
      modifies this`lines
      ensures lines == MergeWithPrevious(old(lines), i)
    {
      ghost var base := lines;
      var prevLineIndex := i - 1;
      var prevLine := lines[prevLineIndex];
      var merged := if prevLine.kind.Text? then prevLine.(text := prevLine.text + lines[i].text) else prevLine;
      lines := lines[prevLineIndex := merged];
      var blockEnd := GetDescendantEnd(i);
      var hasChildren := blockEnd > i + 1;
      var count := if hasChildren then 1 else blockEnd - i;
      assert count == 1;
      UpdateIsSplice(base, prevLineIndex, merged);
      assert lines[..i] == base[..prevLineIndex] + [merged];
      lines := lines[..i] + lines[i + count..];
    }

    /** `handleDelete`: a selection is deleted; otherwise the effect is
        `DeleteEffect`, whose only new line (when the last line, an image, is
        deleted) takes the next id. */
    method HandleDelete()
      requires Valid()
      modifies this`lines, this`cursor, this`selection, this`anchor, this`documentVersion, this`undoStack,
               this`redoStack, this`nextId
      ensures Valid()
      ensures old(selection).Some? ==>
                && (lines, cursor) == Collapsed(old(lines), old(cursor), old(selection))
                && selection.None? && anchor.None? && Recorded()
                && documentVersion == old(documentVersion) + 1 && nextId == old(nextId)
      ensures old(selection).None? ==>
                KeyApplied(DeleteEffect(old(lines), old(cursor), old(nextId)),
                           if DeleteCreatesLine(old(lines), old(cursor)) then 1 else 0)
    {
      var deleted := DeleteSelection();
      if !deleted {
        DeleteAtCaret();
      }
    }

    /** `handleDelete` once it is known that there is no selection. */
    method DeleteAtCaret()
      requires Valid() && selection.None?
      modifies this`lines, this`cursor, this`selection, this`anchor, this`documentVersion, this`undoStack,
               this`redoStack, this`nextId
      ensures Valid()
      ensures KeyApplied(DeleteEffect(old(lines), old(cursor), old(nextId)),
                         if DeleteCreatesLine(old(lines), old(cursor)) then 1 else 0)
    {
      var c := cursor;
      var line := lines[c.line];
      if line.kind.Image? {
        DeleteImageAtCaret();
      } else {
        DeleteTextAtCaret();
      }
    }

    /** The text-line branches of `handleDelete`: a character goes, or the
        next line is removed (an image) or merged in (text). */
    method DeleteTextAtCaret()
      requires Valid() && selection.None? && !lines[cursor.line].kind.Image?
      modifies this`lines, this`cursor, this`selection, this`anchor, this`documentVersion, this`undoStack,
               this`redoStack, this`nextId
      ensures Valid()
      ensures KeyApplied(DeleteEffect(old(lines), old(cursor), old(nextId)), 0)
    {
      var c := cursor;
      var line := lines[c.line];
      DeleteShape(lines, c, nextId);
      if c.ch < |line.text| {
        SetLineText(c.line, Slice(line.text, 0, c.ch) + SliceFrom(line.text, c.ch + 1), None);
        return;
      }
      if c.line >= |lines| - 1 {
        return;
      }
      var nextLineIndex := c.line + 1;
      var nextLine := lines[nextLineIndex];
      if nextLine.kind.Image? {
        RemoveLineAt(nextLineIndex, None);
        return;
      }
      MergeNextIntoLine();
    }

    /** The image branch of `handleDelete`: the image line goes; an emptied
        document receives a fresh empty text line. */
    method DeleteImageAtCaret()
      requires Valid() && selection.None? && lines[cursor.line].kind.Image?
      modifies this`lines, this`cursor, this`selection, this`anchor, this`documentVersion, this`undoStack,
               this`redoStack, this`nextId
      ensures Valid()
      ensures var d := ImageDeletion(old(lines), old(cursor), old(nextId));
              KeyApplied(Rewrite(d.0, Some(d.1)), if DeleteCreatesLine(old(lines), old(cursor)) then 1 else 0)
    {
      ghost var firstId := nextId;
      SaveHistory();
      DropImageLine();
      StackGrows(undoStack, firstId, nextId);
    }

    /** The body of that branch once history is recorded. */
    method DropImageLine()
      requires PointIn(lines, cursor) && lines[cursor.line].kind.Image?
      requires UniqueIds(lines) && IdsBelow(lines, nextId)
      modifies this`lines, this`cursor, this`selection, this`anchor, this`documentVersion, this`nextId
      ensures (lines, cursor) == ImageDeletion(old(lines), old(cursor), old(nextId))
      ensures |lines| >= 1 && PointIn(lines, cursor) && UniqueIds(lines) && IdsBelow(lines, nextId)
      ensures nextId == old(nextId) + (if DeleteCreatesLine(old(lines), old(cursor)) then 1 else 0)
      ensures selection.None? && anchor.None? && documentVersion == old(documentVersion) + 1
    {
      DeleteImageLine(lines, cursor, nextId);
      var target := RemoveImageLine();
      SetCursor(target.line, target.ch, true);
    }

    /** The line edit of the image branch of `handleDelete`; `target` is
        where the caret goes. */
    method RemoveImageLine() returns (target: Point)
      requires PointIn(lines, cursor) && lines[cursor.line].kind.Image?
      modifies this`lines, this`documentVersion, this`nextId
      ensures (lines, target) == ImageDeletion(old(lines), cursor, old(nextId))
      ensures nextId == old(nextId) + (if DeleteCreatesLine(old(lines), cursor) then 1 else 0)
      ensures documentVersion == old(documentVersion) + 1
    {
      var c := cursor;
      ghost var d := ImageDeletion(lines, c, nextId);
      lines := lines[..c.line] + lines[c.line + 1..];
      MarkDocumentVersion();
      var targetIndex := Min(c.line, |lines| - 1);
      if |lines| == 0 {
        var newLine := CreateLine(Text, "", 0);
        assert [] + [newLine] == d.0;
        lines := lines + [newLine];
        target := Point(0, 0);
      } else {
        target := Point(targetIndex, Min(c.ch, LineLength(lines[targetIndex])));
      }
    }

    /** The last branch of `handleDelete`: history is recorded and the next
        line merged into the caret line (`MergeNextBlock`). */
    method MergeNextIntoLine()
      requires Valid() && selection.None? && cursor.line + 1 < |lines|
      requires var r := MergeNextBlock(lines, cursor.line);
               UniqueIds(r) && IdsBelow(r, nextId) && PointIn(r, cursor)
      modifies this`lines, this`documentVersion, this`undoStack, this`redoStack
      ensures Valid() && KeyApplied(Rewrite(MergeNextBlock(old(lines), cursor.line), None), 0)
    {
      SaveHistory();
      MergeNextLines(cursor.line);
      MarkDocumentVersion();
    }

    /** The line edits of that branch: the next line's indent is clamped to
        the caret line's, its text appended to the caret line, and the block
        it heads (measured after the clamp) removed. */
    method MergeNextLines(i: nat)
      requires i + 1 < |lines|
      modifies this`lines
      ensures lines == MergeNextBlock(old(lines), i)
    {
      ghost var base := lines;
      var nextLineIndex := i + 1;
      var nextLine := lines[nextLineIndex];
      if nextLine.indent > lines[i].indent {
        lines := lines[nextLineIndex := nextLine.(indent := lines[i].indent)];
      }
      ghost var clamped := lines;
      assert clamped == ClampNext(base, i);
      var line := lines[i];
      var merged := line.(text := line.text + nextLine.text);
      lines := lines[i := merged];
      var blockEnd := DescendantEndAfter(nextLineIndex, clamped);
      var blockLength := blockEnd - nextLineIndex;
      RemoveBlockAfter(i, blockLength, base, merged);
      assert nextLineIndex + blockLength == DescendantEnd(ClampNext(base, i), i + 1);
    }

    /** `lines.splice(i + 1, blockLength)` after line `i` became `merged`
        (and line `i + 1` possibly re-indented). */
    method RemoveBlockAfter(i: nat, blockLength: nat, ghost base: seq<Line>, ghost merged: Line)
      requires 0 < blockLength && i + 1 + blockLength <= |base| == |lines| && lines[i] == merged
      requires forall k :: 0 <= k < |base| && k != i && k != i + 1 ==> lines[k] == base[k]
      modifies this`lines
      ensures lines == base[..i] + [merged] + base[i + 1 + blockLength..]
    {
      SpliceOutAfter(base, lines, i, merged, i + 1 + blockLength);
      lines := lines[..i + 1] + lines[i + 1 + blockLength..];
    }

    /** `getDescendantEnd(index)` on lines that agree from `index` on with
        `other`: the block end is the one `other` has. */
    method DescendantEndAfter(index: nat, ghost other: seq<Line>) returns (r: nat)
      requires index < |lines| == |other|
      requires forall k :: index <= k < |lines| ==> lines[k].indent == other[k].indent
      ensures r == DescendantEnd(other, index)
    {
      DeeperRunSame(lines, other, other[index].indent, index + 1);
      r := GetDescendantEnd(index);
    }

    // ----- moving lines and blocks -----

    /** `const block = lines.splice(start, blockLength); lines.splice(insertIndex, 0, ...block)` */
    method RelocateLines(start: nat, blockLength: nat, insertIndex: nat)
      requires start + blockLength <= |lines| && insertIndex <= |lines| - blockLength
      modifies this`lines
      ensures lines == Relocate(old(lines), start, start + blockLength, insertIndex)
    {
      var block := lines[start..start + blockLength];
      lines := lines[..start] + lines[start + blockLength..];
      lines := lines[..insertIndex] + block + lines[insertIndex..];
    }

    /** The state after a `moveLine` that moved lines `[s, e]` by `delta`:
        the lines are `MovedLines`, the caret, the selection ends and, with a
        selection, the anchor follow the moved lines (`ShiftPoint`; the caret
        then clamped into the document), and history was recorded. */
    twostate predicate LinesMoved(s: nat, e: nat, delta: int)
      requires s <= e < |old(lines)| && delta != 0 && 0 <= s + delta && e + delta < |old(lines)|
      reads this
    {
      var q := ShiftPoint(old(cursor), s, e, delta);
      && lines == MovedLines(old(lines), s, e, delta)
      && cursor == ClampPoint(lines, q.line, q.ch)
      && selection == (if old(selection).Some?
                       then Some(Selection(ShiftPoint(old(selection).value.start, s, e, delta),
                                           ShiftPoint(old(selection).value.end, s, e, delta)))
                       else None)
      && anchor == (if old(selection).Some? && old(anchor).Some? then Some(ShiftPoint(old(anchor).value, s, e, delta)) else None)
      && Recorded() && documentVersion == old(documentVersion) + 1
    }

    /** `moveLine(delta)`: the selection's lines, or the caret line, move by
        `delta` unless that would leave the document; a caret on a moved line
        stays on the same line and unit. */
    method MoveLine(delta: int)
      requires Valid()
      modifies this`lines, this`cursor, this`selection, this`anchor, this`documentVersion, this`undoStack, this`redoStack
      ensures Valid()
      ensures var (s, e) := MoveRange(old(selection), old(cursor));
              if delta != 0 && 0 <= s + delta && e + delta < |old(lines)|
              then LinesMoved(s, e, delta)
                   && (s <= old(cursor).line <= e ==>
                         cursor == ShiftPoint(old(cursor), s, e, delta) && lines[cursor.line] == old(lines)[old(cursor).line])
              else unchanged(this)
    {
      if delta == 0 {
        return;
      }
      var range := SelectionLineRange(selection);
      var hasSelection := range.Some?;
      var start := if hasSelection then range.value.start else cursor.line;
      var end := if hasSelection then range.value.end else cursor.line;
      if delta < 0 && start + delta < 0 {
        return;
      }
      if delta > 0 && end + delta >= |lines| {
        return;
      }
      MoveLines(start, end, delta);
    }

    /** The body of `moveLine` once the range `[start, end]` and the move are
        known to stay inside the document. */
    method MoveLines(start: nat, end: nat, delta: int)
      requires Valid() && start <= end < |lines| && delta != 0 && 0 <= start + delta && end + delta < |lines|
      requires selection.Some? ==> (start, end) == MoveRange(selection, cursor)
      modifies this`lines, this`cursor, this`selection, this`anchor, this`documentVersion, this`undoStack, this`redoStack
      ensures Valid() && LinesMoved(start, end, delta)
      ensures start <= old(cursor).line <= end ==>
                cursor == ShiftPoint(old(cursor), start, end, delta) && lines[cursor.line] == old(lines)[old(cursor).line]
    {
      PrepareMove(start, end, delta);
      SaveHistory();
      ShiftLines(start, end, delta);
      ShiftCaret(start, end, delta);
      MarkDocumentVersion();
    }

    /** The two splices of `moveLine`. */
    method ShiftLines(start: nat, end: nat, delta: int)
      requires start <= end < |lines| && delta != 0 && 0 <= start + delta && end + delta < |lines|
      modifies this`lines
      ensures lines == MovedLines(old(lines), start, end, delta)
    {
      var blockLength := end - start + 1;
      var insertIndex := start + delta;
      RelocateLines(start, blockLength, insertIndex);
    }

    /** The caret, selection and anchor updates of `moveLine`. */
    method ShiftCaret(start: nat, end: nat, delta: int)
      requires |lines| >= 1 && 0 <= start + delta
      modifies this`cursor, this`selection, this`anchor
      ensures var q := ShiftPoint(old(cursor), start, end, delta);
              cursor == ClampPoint(lines, q.line, q.ch)
      ensures selection == (if old(selection).Some?
                            then Some(Selection(ShiftPoint(old(selection).value.start, start, end, delta),
                                                ShiftPoint(old(selection).value.end, start, end, delta)))
                            else None)
      ensures anchor == (if old(selection).Some? && old(anchor).Some? then Some(ShiftPoint(old(anchor).value, start, end, delta)) else None)
    {
      var originalCursor := cursor;
      var originalSelection := selection;
      var originalAnchor := anchor;
      var newCursor := ShiftPoint(originalCursor, start, end, delta);
      if originalSelection.Some? {
        selection := Some(Selection(ShiftPoint(originalSelection.value.start, start, end, delta),
                                    ShiftPoint(originalSelection.value.end, start, end, delta)));
      }
      if originalAnchor.Some? {
        anchor := Some(ShiftPoint(originalAnchor.value, start, end, delta));
      }
      SetCursor(newCursor.line, newCursor.ch, originalSelection.None?);
    }

    /** What `moveLine` needs of the moved lines: ids stay unique, and the
        selection ends and a caret inside the range land on their lines. */
    lemma PrepareMove(s: nat, e: nat, delta: int)
      requires Valid() && s <= e < |lines| && delta != 0 && 0 <= s + delta && e + delta < |lines|
      requires selection.Some? ==> (s, e) == MoveRange(selection, cursor)
      ensures var r := MovedLines(lines, s, e, delta);
              && UniqueIds(r) && IdsBelow(r, nextId)
              && (selection.Some? ==>
                    PointIn(r, ShiftPoint(selection.value.start, s, e, delta))
                    && PointIn(r, ShiftPoint(selection.value.end, s, e, delta)))
              && (s <= cursor.line <= e ==>
                    var q := ShiftPoint(cursor, s, e, delta);
                    PointIn(r, q) && r[q.line] == lines[cursor.line])
    {
      var r := MovedLines(lines, s, e, delta);
      MovedLinesPermutes(lines, s, e, delta);
      PermutedIds(lines, r, nextId);
      if selection.Some? {
        ShiftPointFollowsLine(lines, s, e, delta, selection.value.start);
        ShiftPointFollowsLine(lines, s, e, delta, selection.value.end);
      }
      if s <= cursor.line <= e {
        ShiftPointFollowsLine(lines, s, e, delta, cursor);
      }
    }

    /** The state after `moveBlock` moved the caret's block: the lines are
        `r`, the caret is on line `head` at its old unit (clamped), the
        selection is gone and history was recorded. */
    twostate predicate BlockMoved(r: seq<Line>, head: nat)
      reads this
    {
      && lines == r && |r| >= 1
      && cursor == ClampPoint(r, head, old(cursor).ch)
      && selection.None? && anchor.None?
      && Recorded() && documentVersion == old(documentVersion) + 1 && nextId == old(nextId)
    }

    /** The state after `moveBlock` for the outcome `m` computed on the state
        before it: no change, or the block moved as `BlockMoved` says. */
    twostate predicate MovedAs(m: Option<(seq<Line>, nat)>)
      reads this
    {
      match m
      case None => unchanged(this)
      case Some((r, head)) => BlockMoved(r, head)
    }

    /** `moveBlock(direction)`: the caret's block (its line and descendants)
        swaps places with the previous (`direction < 0`) or next sibling
        block; with no such sibling nothing changes. */
    method MoveBlock(direction: int)
      requires Valid()
      modifies this`lines, this`cursor, this`selection, this`anchor, this`documentVersion, this`undoStack, this`redoStack
      ensures Valid() && MovedAs(MovedBlock(old(lines), old(cursor).line, direction))
    {
      if direction < 0 {
        MoveBlockUp(direction);
      } else {
        MoveBlockDown(direction);
      }
    }

    /** The `direction < 0` branch of `moveBlock`. */
    method MoveBlockUp(direction: int)
      requires Valid() && direction < 0
      modifies this`lines, this`cursor, this`selection, this`anchor, this`documentVersion, this`undoStack, this`redoStack
      ensures Valid() && MovedAs(MovedBlock(old(lines), old(cursor).line, direction))
    {
      var start := cursor.line;
      var end := GetDescendantEnd(start);
      // `end > start` always holds, so the source's `blockLength <= 0` exit
      // never fires.
      var baseIndent := lines[start].indent;
      var prev := start as int - 1;
      while prev >= 0 && lines[prev].indent > baseIndent
        invariant -1 <= prev < start
        invariant ShallowerBefore(lines, baseIndent + 1, prev) == ShallowerBefore(lines, baseIndent + 1, start as int - 1)
        decreases prev + 1
      {
        prev := prev - 1;
      }
      if prev < 0 || lines[prev].indent != baseIndent {
        return;
      }
      MovedBlockUp(lines, start, direction, prev);
      RelocatePermutes(lines, start, end, prev);
      ApplyBlockEdit(Relocate(lines, start, end, prev), prev);
    }

    /** The `direction >= 0` branch of `moveBlock`. */
    method MoveBlockDown(direction: int)
      requires Valid() && direction >= 0
      modifies this`lines, this`cursor, this`selection, this`anchor, this`documentVersion, this`undoStack, this`redoStack
      ensures Valid() && MovedAs(MovedBlock(old(lines), old(cursor).line, direction))
    {
      var start := cursor.line;
      var end := GetDescendantEnd(start);
      var blockLength := end - start;
      var baseIndent := lines[start].indent;
      if end >= |lines| || lines[end].indent != baseIndent {
        assert MovedBlock(lines, start, direction).None?;
        return;
      }
      var nextBlockEnd := GetDescendantEnd(end);
      var insertIndex := nextBlockEnd - blockLength;
      MovedBlockDown(lines, start, direction);
      RelocatePermutes(lines, start, end, insertIndex);
      ApplyBlockEdit(Relocate(lines, start, end, insertIndex), insertIndex);
    }

    /** The recorded edit of `moveBlock`: the relocated lines `r` replace the
        document and the caret goes to the block's new first line. */
    method ApplyBlockEdit(r: seq<Line>, head: nat)
      requires Valid() && |r| >= 1 && multiset(r) == multiset(lines)
      modifies this`lines, this`cursor, this`selection, this`anchor, this`documentVersion, this`undoStack, this`redoStack
      ensures Valid() && BlockMoved(r, head)
    {
      PermutedIds(lines, r, nextId);
      SaveHistory();
      lines := r;
      SetCursor(head, cursor.ch, true);
      MarkDocumentVersion();
    }
  }
}
