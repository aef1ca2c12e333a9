/**
 * The legacy canvas editor of main.js: one flat string, its lines, a caret
 * and a selection, with arrow keys, Backspace/Delete, typing and Tab /
 * Shift+Tab re-indentation of the selected rows. Unlike script.js it keeps
 * no history and does not clamp the selection after an indent change.
 */
module MainEditor {
  import opened JsString
  import opened FlatText

  /** `this.indentSize`. */
  const INDENT_SIZE: nat := 2

  datatype ArrowKey = ArrowLeft | ArrowRight | ArrowUp | ArrowDown

  function Spaces(n: nat): (r: string)
    ensures |r| == n && forall i :: 0 <= i < n ==> r[i] == ' '
  {
    seq(n, _ => ' ')
  }

  /** How many characters the pattern `^ {1,n}` matches from `i` on: the
      run of spaces starting at `i`, capped at `n`. */
  function SpaceRun(line: string, n: nat, i: nat): (r: nat)
    requires i <= n && i <= |line|
    ensures i <= r <= n && r <= |line|
    ensures r < n && r < |line| ==> line[r] != ' '
    decreases n - i
  {
    if i < n && i < |line| && line[i] == ' ' then SpaceRun(line, n, i + 1) else i
  }

  lemma {:induction false} SpaceRunIsSpaces(line: string, n: nat, i: nat)
    requires i <= n && i <= |line|
    ensures forall k :: i <= k < SpaceRun(line, n, i) ==> line[k] == ' '
    decreases n - i
  {
    if i < n && i < |line| && line[i] == ' ' {
      SpaceRunIsSpaces(line, n, i + 1);
    }
  }

  /** One row of `modifyIndent`: indenting prefixes `indentSize` spaces,
      outdenting drops what `^ {1,indentSize}` matches. */
  function Reindent(line: string, isIndent: bool): string
  {
    if isIndent then Spaces(INDENT_SIZE) + line
    else line[SpaceRun(line, INDENT_SIZE, 0)..]
  }

  /** Indenting adds exactly the indent in front of the row. Outdenting
      removes only leading spaces, at most the indent width, and removes
      fewer only when the row then no longer starts with a space. */
  lemma ReindentShape(line: string, isIndent: bool)
    ensures isIndent ==> Reindent(line, true) == Spaces(INDENT_SIZE) + line
    ensures var out := Reindent(line, false); var k := |line| - |out|;
      0 <= k <= INDENT_SIZE && line == Spaces(k) + out
      && (k < INDENT_SIZE ==> out == [] || out[0] != ' ')
  {
    var k := SpaceRun(line, INDENT_SIZE, 0);
    SpaceRunIsSpaces(line, INDENT_SIZE, 0);
    assert line[..k] == Spaces(k);
    assert line == line[..k] + line[k..];
  }

  /** The rows `from..to` (inclusive) re-indented, the others unchanged. */
  function IndentRows(lines: seq<string>, from: int, to: int, isIndent: bool): (r: seq<string>)
    ensures |r| == |lines|
    ensures forall k :: 0 <= k < |lines| ==> r[k] == (if from <= k <= to then Reindent(lines[k], isIndent) else lines[k])
  {
    seq(|lines|, k requires 0 <= k < |lines| => if from <= k <= to then Reindent(lines[k], isIndent) else lines[k])
  }

  /** Replacing one row changes the extent of every later row by the
      difference in that row's length. */
  lemma {:induction false} OffsetUpdate(lines: seq<string>, i: nat, x: string, row: nat)
    requires i < |lines| && row <= |lines|
    ensures Offset(lines[i := x], row) == Offset(lines, row) + (if i < row then |x| - |lines[i]| else 0)
    decreases row
  {
    if row > 0 {
      OffsetUpdate(lines, i, x, row - 1);
    }
  }

  /** Re-indenting the rows keeps every row's content apart from its
      leading spaces, and leaves the rows outside the range alone. */
  lemma IndentRowsKeepsContent(lines: seq<string>, from: int, to: int, isIndent: bool, k: nat)
    requires k < |lines|
    ensures var r := IndentRows(lines, from, to, isIndent);
      (from <= k <= to && isIndent ==> r[k] == Spaces(INDENT_SIZE) + lines[k])
      && (from <= k <= to && !isIndent ==> exists n :: 0 <= n <= INDENT_SIZE && lines[k] == Spaces(n) + r[k])
      && (!(from <= k <= to) ==> r[k] == lines[k])
  {
    ReindentShape(lines[k], isIndent);
    if from <= k <= to && !isIndent {
      var n := |lines[k]| - |Reindent(lines[k], false)|;
      assert lines[k] == Spaces(n) + IndentRows(lines, from, to, isIndent)[k];
    }
  }

  /** The loop of `modifyIndent` over the local copy of the lines: rows
      `from..to` re-indented, `charsChanged` the net change in length. */
  method ReindentLoop(orig: seq<string>, from: int, to: int, isIndent: bool) returns (ls: seq<string>, charsChanged: int)
    requires 0 <= from && to < |orig|
    ensures ls == IndentRows(orig, from, to, isIndent)
    ensures charsChanged == Offset(ls, |ls|) - Offset(orig, |orig|)
  {
    ls := orig;
    charsChanged := 0;
    var i := from;
    while i <= to
      invariant from <= i && (i <= to + 1 || i == from)
      invariant |ls| == |orig|
      invariant forall k :: 0 <= k < |ls| ==> ls[k] == (if from <= k < i then Reindent(orig[k], isIndent) else orig[k])
      invariant charsChanged == Offset(ls, |ls|) - Offset(orig, |orig|)
    {
      var originalLine := ls[i];
      var line: string;
      if isIndent {
        line := Spaces(INDENT_SIZE) + originalLine;
        OffsetUpdate(ls, i, line, |ls|);
        ls := ls[i := line];
        charsChanged := charsChanged + INDENT_SIZE;
      } else {
        line := originalLine[SpaceRun(originalLine, INDENT_SIZE, 0)..];
        OffsetUpdate(ls, i, line, |ls|);
        ls := ls[i := line];
        charsChanged := charsChanged - (|originalLine| - |line|);
      }
      i := i + 1;
    }
  }

  class Editor {
    var text: string
    var lines: seq<string>
    var cursor: int
    var selectionStart: int
    var selectionEnd: int
    var isDragging: bool

    /** `lines` is always `text.split("\n")`; the caret and the anchor
        never go below zero. Neither is bounded by the text length: an
        outdent shortens the text without moving them. */
    predicate Valid()
      reads this`text, this`lines, this`cursor, this`selectionStart
    {
      lines == Split(text, '\n') && cursor >= 0 && selectionStart >= 0
    }

    /** The caret and both selection ends lie inside the text. */
    predicate InRange()
      reads this`text, this`cursor, this`selectionStart, this`selectionEnd
    {
      0 <= cursor <= |text| && 0 <= selectionStart <= |text| && 0 <= selectionEnd <= |text|
    }

    /** The constructor with its demo text as a parameter. */
    constructor(initial: string)
      ensures Valid() && InRange()
      ensures text == initial && cursor == 0 && selectionStart == 0 && selectionEnd == 0 && !isDragging
    {
      text := initial;
      lines := Split(initial, '\n');
      cursor := 0;
      selectionStart := 0;
      selectionEnd := 0;
      isDragging := false;
    }

    predicate HasSelection()
      reads this`selectionStart, this`selectionEnd
    {
      selectionStart != selectionEnd
    }

    function SelectionRange(): (r: Range)
      reads this`selectionStart, this`selectionEnd
      ensures r.start <= r.end
      ensures (r.start, r.end) == (selectionStart, selectionEnd) || (r.start, r.end) == (selectionEnd, selectionStart)
      ensures r.start < r.end <==> HasSelection()
    {
      Range(Min(selectionStart, selectionEnd), Max(selectionStart, selectionEnd))
    }

    method SetCursor(index: int)
      modifies this`cursor
      ensures cursor == ClampCursor(index, |text|)
    {
      cursor := Max(0, Min(|text|, index));
    }

    /** `text = …; this.updateLines()`. */
    method SetText(t: string)
      modifies this`text, this`lines
      ensures text == t && lines == Split(t, '\n')
    {
      text := t;
      lines := Split(t, '\n');
    }

    /** `setCursor(i)` followed by `selectionStart = selectionEnd = cursor`. */
    method CollapseTo(index: int)
      modifies this`cursor, this`selectionStart, this`selectionEnd
      ensures cursor == ClampCursor(index, |text|) && selectionStart == cursor && selectionEnd == cursor
    {
      SetCursor(index);
      selectionStart := cursor;
      selectionEnd := cursor;
    }

    /** `deleteSelection`: removes `slice(start, end)` with JavaScript's
        slice semantics and puts the caret, clamped, at the start. With the
        selection inside the text it is exactly the removal of that range. */
    method DeleteSelection()
      requires Valid()
      modifies this`text, this`lines, this`cursor, this`selectionStart, this`selectionEnd
      ensures Valid()
      ensures !old(HasSelection()) ==> (text == old(text) && cursor == old(cursor)
        && selectionStart == old(selectionStart) && selectionEnd == old(selectionEnd))
      ensures old(HasSelection()) ==>
        text == Slice(old(text), 0, old(SelectionRange()).start) + SliceFrom(old(text), old(SelectionRange()).end)
        && cursor == ClampCursor(old(SelectionRange()).start, |text|) && InRange()
        && selectionStart == cursor && selectionEnd == cursor
      ensures old(HasSelection()) && old(InRange()) ==>
        text == Splice(old(text), old(SelectionRange()).start, old(SelectionRange()).end, "")
        && cursor == old(SelectionRange()).start
    {
      if !HasSelection() {
        return;
      }
      var r := SelectionRange();
      SetText(Slice(text, 0, r.start) + SliceFrom(text, r.end));
      CollapseTo(r.start);
    }

    /** `insertText`: replaces the selection, then inserts at the caret
        and moves the caret past the inserted text. */
    method InsertText(newText: string)
      requires Valid()
      modifies this`text, this`lines, this`cursor, this`selectionStart, this`selectionEnd
      ensures Valid() && InRange()
      ensures old(HasSelection()) && old(InRange()) ==>
        var r := old(SelectionRange());
        text == Splice(old(text), r.start, r.end, newText) && cursor == r.start + |newText|
      ensures !old(HasSelection()) ==>
        text == Slice(old(text), 0, old(cursor)) + newText + SliceFrom(old(text), old(cursor))
        && cursor == ClampCursor(old(cursor) + |newText|, |text|)
      ensures !old(HasSelection()) && old(cursor) <= |old(text)| ==>
        text == Splice(old(text), old(cursor), old(cursor), newText) && cursor == old(cursor) + |newText|
      ensures selectionStart == cursor && selectionEnd == cursor
    {
      ghost var t0 := text;
      if HasSelection() {
        DeleteSelection();
      }
      var prevCursor := cursor;
      InsertAt(prevCursor, newText);
      CollapseTo(prevCursor + |newText|);
      if old(HasSelection()) && old(InRange()) {
        var r := old(SelectionRange());
        assert prevCursor == r.start;
        assert text == t0[..r.start] + newText + t0[r.end..];
      }
    }

    /** `text.slice(0, at) + ins + text.slice(at)`. */
    method InsertAt(at: int, ins: string)
      requires at >= 0
      modifies this`text, this`lines
      ensures text == Slice(old(text), 0, at) + ins + SliceFrom(old(text), at)
      ensures lines == Split(text, '\n')
      ensures at <= |old(text)| ==> text == Splice(old(text), at, at, ins)
    {
      SetText(Slice(text, 0, at) + ins + SliceFrom(text, at));
    }

    /** The `Backspace` branch of `onKeydown`: delete the selection, or the
        character before the caret. */
    method Backspace()
      requires Valid()
      modifies this`text, this`lines, this`cursor, this`selectionStart, this`selectionEnd
      ensures Valid()
      ensures old(HasSelection()) ==>
        text == Slice(old(text), 0, old(SelectionRange()).start) + SliceFrom(old(text), old(SelectionRange()).end)
        && cursor == ClampCursor(old(SelectionRange()).start, |text|) && selectionStart == cursor && selectionEnd == cursor
      ensures !old(HasSelection()) && old(cursor) == 0 ==>
        text == old(text) && cursor == 0 && selectionStart == old(selectionStart) && selectionEnd == old(selectionEnd)
      ensures !old(HasSelection()) && 0 < old(cursor) <= |old(text)| ==>
        text == Splice(old(text), old(cursor) - 1, old(cursor), "") && cursor == old(cursor) - 1
        && selectionStart == cursor && selectionEnd == cursor
      ensures !old(HasSelection()) && old(cursor) > |old(text)| ==>
        text == old(text) && cursor == |text| && selectionStart == cursor && selectionEnd == cursor
    {
      if HasSelection() {
        DeleteSelection();
      } else if cursor > 0 {
        var prevCursor := cursor - 1;
        SetText(Slice(text, 0, prevCursor) + SliceFrom(text, cursor));
        CollapseTo(prevCursor);
      }
    }

    /** The `Delete` branch of `onKeydown`: delete the selection, or the
        character after the caret, which stays put. */
    method Delete()
      requires Valid()
      modifies this`text, this`lines, this`cursor, this`selectionStart, this`selectionEnd
      ensures Valid()
      ensures old(HasSelection()) ==>
        text == Slice(old(text), 0, old(SelectionRange()).start) + SliceFrom(old(text), old(SelectionRange()).end)
        && cursor == ClampCursor(old(SelectionRange()).start, |text|) && selectionStart == cursor && selectionEnd == cursor
      ensures !old(HasSelection()) && old(cursor) >= |old(text)| ==> text == old(text)
      ensures !old(HasSelection()) && old(cursor) < |old(text)| ==>
        text == Splice(old(text), old(cursor), old(cursor) + 1, "")
      ensures !old(HasSelection()) ==> (cursor == old(cursor)
        && selectionStart == old(selectionStart) && selectionEnd == old(selectionEnd))
    {
      if HasSelection() {
        DeleteSelection();
      } else if cursor < |text| {
        SetText(Slice(text, 0, cursor) + SliceFrom(text, cursor + 1));
      }
    }

    /** `handleArrowKeys`: Left/Right step one character inside the text;
        Up/Down keep the column, pulled back to the end of a shorter target
        row, and do nothing on the first/last row. Without Shift the
        selection collapses to the caret, with Shift its end follows it. */
    method HandleArrowKeys(key: ArrowKey, shift: bool)
      requires Valid()
      modifies this`cursor, this`selectionStart, this`selectionEnd
      ensures Valid()
      ensures key == ArrowLeft ==> cursor == (if old(cursor) > 0 then ClampCursor(old(cursor) - 1, |text|) else old(cursor))
      ensures key == ArrowRight ==> cursor == (if old(cursor) < |text| then old(cursor) + 1 else old(cursor))
      ensures key == ArrowUp ==> var p := PosOf(lines, old(cursor));
        (p.row == 0 ==> cursor == old(cursor))
        && (p.row > 0 ==> 0 <= cursor <= |text| && PosOf(lines, cursor) == Pos(p.row - 1, Min(p.col, |lines[p.row - 1]|)))
      ensures key == ArrowDown ==> var p := PosOf(lines, old(cursor));
        (p.row == |lines| - 1 ==> cursor == old(cursor))
        && (p.row < |lines| - 1 ==> 0 <= cursor <= |text| && PosOf(lines, cursor) == Pos(p.row + 1, Min(p.col, |lines[p.row + 1]|)))
      ensures !shift ==> selectionStart == cursor && selectionEnd == cursor
      ensures shift ==> selectionStart == old(selectionStart) && selectionEnd == cursor
    {
      var row, col := PosFromIndex(lines, cursor);
      match key {
        case ArrowLeft =>
          if cursor > 0 {
            SetCursor(cursor - 1);
          }
        case ArrowRight =>
          if cursor < |text| {
            SetCursor(cursor + 1);
          }
        case ArrowUp =>
          if row > 0 {
            MoveToRow(row, col, row - 1);
          }
        case ArrowDown =>
          if row < |lines| - 1 {
            MoveToRow(row, col, row + 1);
          }
      }
      if !shift {
        selectionStart := cursor;
        selectionEnd := cursor;
      } else {
        selectionEnd := cursor;
      }
    }

    /** The body of the ArrowUp/ArrowDown cases: the same column on the
        target row, or the end of that row when it is shorter. */
    method MoveToRow(row: int, col: int, target: nat)
      requires Valid() && target < |lines|
      requires Pos(row, col) == PosOf(lines, cursor)
      modifies this`cursor
      ensures 0 <= cursor <= |text| && PosOf(lines, cursor) == Pos(target, Min(col, |lines[target]|))
    {
      var targetCol := col;
      var newIndex := IndexFromPos(lines, target, targetCol);
      var targetLineLength := |lines[target]|;
      var dest: int;
      if targetCol > targetLineLength {
        dest := IndexFromPos(lines, target, targetLineLength);
      } else {
        dest := newIndex;
      }
      JoinSplit(text, '\n');
      IndexRoundTrip(lines, target, Min(col, targetLineLength));
      SetCursor(dest);
    }

    /** `modifyIndent` as written: the rows from the one holding the start
        of the selection to the one holding its end are re-indented; the
        caret and the anchor stay where they were and the selection end
        moves by the net change in length. */
    method ModifyIndent(isIndent: bool)
      requires Valid()
      modifies this`text, this`lines, this`selectionEnd
      ensures Valid()
      ensures var r := old(SelectionRange());
        text == Join(IndentRows(old(lines), PosOf(old(lines), r.start).row, PosOf(old(lines), r.end).row, isIndent), '\n')
      ensures selectionEnd == old(selectionEnd) + (|text| - |old(text)|)
    {
      var ls, charsChanged := IndentedLines(isIndent);
      SetText(Join(ls, '\n'));
      selectionEnd := selectionEnd + charsChanged;
    }

    /** The rows of `modifyIndent` after its loop, and the net change. */
    method IndentedLines(isIndent: bool) returns (ls: seq<string>, charsChanged: int)
      requires Valid()
      ensures var r := SelectionRange();
        ls == IndentRows(lines, PosOf(lines, r.start).row, PosOf(lines, r.end).row, isIndent)
      ensures charsChanged == |Join(ls, '\n')| - |text|
    {
      var selection := SelectionRange();
      var startRow, startCol := PosFromIndex(lines, selection.start);
      var endRow, endCol := PosFromIndex(lines, selection.end);
      var orig := Split(text, '\n');
      ls, charsChanged := ReindentLoop(orig, startRow, endRow, isIndent);
      JoinLength(ls, '\n');
      JoinLength(orig, '\n');
      JoinSplit(text, '\n');
    }

    /** `modifyIndent` as evidently intended: the same rows re-indented,
        with the caret and both selection ends kept inside the new text. */
    method ModifyIndentClamped(isIndent: bool)
      requires Valid()
      modifies this`text, this`lines, this`cursor, this`selectionStart, this`selectionEnd
      ensures Valid() && InRange()
      ensures var r := old(SelectionRange());
        text == Join(IndentRows(old(lines), PosOf(old(lines), r.start).row, PosOf(old(lines), r.end).row, isIndent), '\n')
      ensures selectionEnd == ClampCursor(old(selectionEnd) + (|text| - |old(text)|), |text|)
      ensures cursor == ClampCursor(old(cursor), |text|) && selectionStart == ClampCursor(old(selectionStart), |text|)
    {
      var ls, charsChanged := IndentedLines(isIndent);
      SetText(Join(ls, '\n'));
      selectionEnd := ClampCursor(selectionEnd + charsChanged, |text|);
      selectionStart := ClampCursor(selectionStart, |text|);
      SetCursor(cursor);
    }

    /** `onInput` outside a composition: a non-empty value is inserted. */
    method OnInput(value: string, isComposing: bool)
      requires Valid()
      modifies this`text, this`lines, this`cursor, this`selectionStart, this`selectionEnd
      ensures Valid()
      ensures isComposing || value == "" ==> (text == old(text) && cursor == old(cursor)
        && selectionStart == old(selectionStart) && selectionEnd == old(selectionEnd))
      ensures !isComposing && value != "" && !old(HasSelection()) && old(cursor) <= |old(text)| ==>
        text == Splice(old(text), old(cursor), old(cursor), value) && cursor == old(cursor) + |value|
    {
      if isComposing || value == "" {
        return;
      }
      InsertText(value);
    }

    /** `onMouseDown` with the hit-tested offset as a parameter: caret and
        selection collapse there and a drag starts. */
    method MouseDown(index: int)
      modifies this`cursor, this`selectionStart, this`selectionEnd, this`isDragging
      ensures isDragging && cursor == ClampCursor(index, |text|)
      ensures selectionStart == cursor && selectionEnd == cursor
    {
      isDragging := true;
      CollapseTo(index);
    }

    /** `onMouseMove`: while dragging, the caret and the selection end
        follow the pointer; otherwise nothing changes. */
    method MouseMove(index: int)
      modifies this`cursor, this`selectionEnd
      ensures isDragging ==> cursor == ClampCursor(index, |text|) && selectionEnd == cursor
      ensures !isDragging ==> cursor == old(cursor) && selectionEnd == old(selectionEnd)
    {
      if isDragging {
        SetCursor(index);
        selectionEnd := cursor;
      }
    }
  }

  /** An outdent with an empty selection at the start of "  abc" leaves
      "abc" and moves the selection end to -2; the following Backspace
      then deletes `slice(0, -2) + slice(0)`, which duplicates text. */
  lemma OutdentThenBackspaceDuplicates()
    ensures var before := "  abc"; var lines := Split(before, '\n');
      var after := Join(IndentRows(lines, PosOf(lines, 0).row, PosOf(lines, 0).row, false), '\n');
      var selectionEnd := 0 + (|after| - |before|);
      after == "abc" && selectionEnd == -2
      && Slice(after, 0, Min(0, selectionEnd)) + SliceFrom(after, Max(0, selectionEnd)) == "aabc"
  {
    var before := "  abc";
    SplitNoSep(before, '\n');
    var lines := Split(before, '\n');
    assert PosOf(lines, 0) == Pos(0, 0);
    assert SpaceRun(before, INDENT_SIZE, 0) == 2;
    var rows := IndentRows(lines, 0, 0, false);
    assert rows[0] == "abc";
    assert rows == ["abc"];
  }
}
