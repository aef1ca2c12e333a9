/**
 * The legacy single-string canvas editor of `script.js`: one text, a caret
 * and a selection as character offsets, insert and overwrite typing, and a
 * bounded undo history of whole-text snapshots. Drawing, the hidden
 * textarea, the mouse and the vertical caret memory are not part of this
 * model.
 */
module ScriptEditor {
  import opened JsString
  import opened FlatText

  /** `config.historyLimit` */
  const HISTORY_LIMIT: nat := 100
  /** `config.indentSize` */
  const INDENT_SIZE: nat := 1

  /** What `saveState` records and `applyState` puts back. */
  datatype Snapshot = Snapshot(text: string, cursor: int, selectionStart: int, selectionEnd: int)

  /** A state the editor can be in: caret and selection inside the text,
      and the moving end of the selection on the caret (every handler of
      the editor puts `selectionEnd` where it puts the caret). */
  predicate SnapshotValid(s: Snapshot)
  {
    0 <= s.cursor <= |s.text| && 0 <= s.selectionStart <= |s.text| && s.selectionEnd == s.cursor
  }

  predicate AllValid(ss: seq<Snapshot>)
  {
    forall i :: 0 <= i < |ss| ==> SnapshotValid(ss[i])
  }

  datatype History = History(undo: seq<Snapshot>, redo: seq<Snapshot>)

  /** Undo and redo together never hold more than the history limit:
      saving clears redo, and undo and redo only move one entry across. */
  predicate HistoryValid(h: History)
  {
    |h.undo| + |h.redo| <= HISTORY_LIMIT && AllValid(h.undo) && AllValid(h.redo)
  }

  /** The state `applyState` leaves: text and selection as recorded, the
      caret clamped by `setCursor`. */
  function Restore(s: Snapshot): (r: Snapshot)
    ensures r.text == s.text && r.selectionStart == s.selectionStart && r.selectionEnd == s.selectionEnd
    ensures 0 <= r.cursor <= |r.text|
    ensures SnapshotValid(s) ==> r == s
  {
    s.(cursor := ClampCursor(s.cursor, |s.text|))
  }

  /** `saveState`: nothing while an undo or redo runs; otherwise push the
      snapshot, drop the oldest entry past the limit and clear redo. */
  function Save(h: History, s: Snapshot, busy: bool): (r: History)
    ensures busy ==> r == h
    ensures !busy ==> r.redo == [] && |r.undo| >= 1 && r.undo[|r.undo| - 1] == s
    ensures !busy ==> r.undo[..|r.undo| - 1] == if |h.undo| < HISTORY_LIMIT then h.undo else h.undo[1..]
  {
    if busy then h
    else
      var pushed := h.undo + [s];
      History(if |pushed| > HISTORY_LIMIT then pushed[1..] else pushed, [])
  }

  lemma SaveKeepsHistoryValid(h: History, s: Snapshot, busy: bool)
    requires HistoryValid(h) && SnapshotValid(s)
    ensures HistoryValid(Save(h, s, busy))
  {
    var r := Save(h, s, busy);
    if !busy {
      assert forall i :: 0 <= i < |r.undo| - 1 ==> r.undo[i] == r.undo[..|r.undo| - 1][i];
    }
  }

  datatype Step = Step(state: Snapshot, history: History)

  /** `undo`: move the current state onto redo and restore the newest
      undo entry; nothing on an empty undo stack. */
  function UndoStep(cur: Snapshot, h: History): (r: Step)
    ensures h.undo == [] ==> r == Step(cur, h)
    ensures HistoryValid(h) && SnapshotValid(cur) ==> HistoryValid(r.history) && SnapshotValid(r.state)
  {
    if h.undo == [] then Step(cur, h)
    else
      var n := |h.undo|;
      Step(Restore(h.undo[n - 1]), History(h.undo[..n - 1], h.redo + [cur]))
  }

  /** `redo`: the mirror image of `undo`. */
  function RedoStep(cur: Snapshot, h: History): (r: Step)
    ensures h.redo == [] ==> r == Step(cur, h)
    ensures HistoryValid(h) && SnapshotValid(cur) ==> HistoryValid(r.history) && SnapshotValid(r.state)
  {
    if h.redo == [] then Step(cur, h)
    else
      var n := |h.redo|;
      Step(Restore(h.redo[n - 1]), History(h.undo + [cur], h.redo[..n - 1]))
  }

  /** Undo followed by redo gives back the text, caret, selection and both
      stacks. */
  lemma UndoThenRedo(cur: Snapshot, h: History)
    requires SnapshotValid(cur) && HistoryValid(h) && h.undo != []
    ensures var u := UndoStep(cur, h); RedoStep(u.state, u.history) == Step(cur, h)
  {
    var n := |h.undo|;
    assert SnapshotValid(h.undo[n - 1]);
    assert h.undo[..n - 1] + [h.undo[n - 1]] == h.undo;
    var u := UndoStep(cur, h);
    assert u.history.redo[..|u.history.redo| - 1] == h.redo;
  }

  /** Redo followed by undo gives back the text, caret, selection and both
      stacks. */
  lemma RedoThenUndo(cur: Snapshot, h: History)
    requires SnapshotValid(cur) && HistoryValid(h) && h.redo != []
    ensures var u := RedoStep(cur, h); UndoStep(u.state, u.history) == Step(cur, h)
  {
    var n := |h.redo|;
    assert SnapshotValid(h.redo[n - 1]);
    assert h.redo[..n - 1] + [h.redo[n - 1]] == h.redo;
    var u := RedoStep(cur, h);
    assert u.history.undo[..|u.history.undo| - 1] == h.undo;
  }

  /** The text `insertText` leaves at caret `c` of `base` (the text after
      any selection was removed): overwrite replaces up to `|newText|`
      following characters, unless the caret is at the end or the input is
      a line break; insert keeps them. */
  function Typed(base: string, c: nat, newText: string, overwrite: bool): (r: string)
    requires c <= |base|
    ensures |r| >= c + |newText|
  {
    if overwrite && c < |base| && newText != "\n" then Splice(base, c, Min(c + |newText|, |base|), newText)
    else Splice(base, c, c, newText)
  }

  /** What typing keeps and what it replaces. */
  lemma TypedShape(base: string, c: nat, newText: string, overwrite: bool)
    requires c <= |base|
    ensures var r := Typed(base, c, newText, overwrite);
      r[..c] == base[..c] && r[c..c + |newText|] == newText
      && (overwrite && c < |base| && newText != "\n" ==> r[c + |newText|..] == base[Min(c + |newText|, |base|)..])
      && (!(overwrite && c < |base| && newText != "\n") ==> r[c + |newText|..] == base[c..])
  {
  }

  /** Typing can be taken back: putting the overwritten characters (none in
      insert mode) back over the typed ones restores the text. */
  lemma TypedUndo(base: string, c: nat, newText: string, overwrite: bool)
    requires c <= |base|
    ensures var e := if overwrite && c < |base| && newText != "\n" then Min(c + |newText|, |base|) else c;
      Splice(Typed(base, c, newText, overwrite), c, c + |newText|, base[c..e]) == base
  {
    var e := if overwrite && c < |base| && newText != "\n" then Min(c + |newText|, |base|) else c;
    SpliceUndo(base, c, e, newText);
  }

  /** How many characters `handleBackspace` removes before the caret: a
      whole indent unit when the caret sits on an indent boundary
      inside leading white space, otherwise one. With an indent size of one
      both cases remove a single character. */
  method BackspaceSize(lines: seq<string>, cursor: int) returns (n: nat)
    requires |lines| >= 1
    ensures n == 1
  {
    var row, col := PosFromIndex(lines, cursor);
    var line := lines[row];
    var isAtIndentBoundary := col > 0 && col % INDENT_SIZE == 0 && Trim(Slice(line, 0, col)) == "";
    n := if isAtIndentBoundary then INDENT_SIZE else 1;
  }

  class Editor {
    var text: string
    var lines: seq<string>
    var cursor: int
    var selectionStart: int
    var selectionEnd: int
    var isOverwriteMode: bool
    var undoStack: seq<Snapshot>
    var redoStack: seq<Snapshot>
    var isUndoingOrRedoing: bool

    function Current(): Snapshot
      reads this`text, this`cursor, this`selectionStart, this`selectionEnd
    {
      Snapshot(text, cursor, selectionStart, selectionEnd)
    }

    function Stacks(): History
      reads this`undoStack, this`redoStack
    {
      History(undoStack, redoStack)
    }

    /** `lines` is always `text.split("\n")` (every edit ends in
        `updateLines`), and caret and selection lie inside the text. */
    ghost predicate TextValid()
      reads this`text, this`lines, this`cursor, this`selectionStart, this`selectionEnd
    {
      lines == Split(text, '\n') && SnapshotValid(Current())
    }

    ghost predicate Valid()
      reads this`text, this`lines, this`cursor, this`selectionStart, this`selectionEnd
      reads this`undoStack, this`redoStack
    {
      TextValid() && HistoryValid(Stacks())
    }

    predicate HasSelection()
      reads this`selectionStart, this`selectionEnd
    {
      selectionStart != selectionEnd
    }

    /** `getSelectionRange`: the two ends in order. */
    function SelectionRange(): (r: Range)
      reads this`selectionStart, this`selectionEnd
      ensures r.start <= r.end
      ensures (r.start, r.end) == (selectionStart, selectionEnd) || (r.start, r.end) == (selectionEnd, selectionStart)
      ensures r.start < r.end <==> HasSelection()
    {
      Range(Min(selectionStart, selectionEnd), Max(selectionStart, selectionEnd))
    }

    constructor (initial: string)
      ensures Valid() && text == initial
      ensures cursor == 0 && selectionStart == 0 && selectionEnd == 0
      ensures !isOverwriteMode && !isUndoingOrRedoing && undoStack == [] && redoStack == []
    {
      text := initial;
      lines := Split(initial, '\n');
      cursor := 0;
      selectionStart := 0;
      selectionEnd := 0;
      isOverwriteMode := false;
      undoStack := [];
      redoStack := [];
      isUndoingOrRedoing := false;
    }

    /** `setCursor`: the caret lands inside the text. */
    method SetCursor(index: int)
      modifies this`cursor
      ensures cursor == ClampCursor(index, |text|)
    {
      cursor := Max(0, Min(|text|, index));
    }

    method SaveState()
      requires Valid()
      modifies this`undoStack, this`redoStack
      ensures Valid()
      ensures Stacks() == Save(old(Stacks()), Current(), isUndoingOrRedoing)
    {
      if isUndoingOrRedoing {
        return;
      }
      var state := Current();
      undoStack := undoStack + [state];
      if |undoStack| > HISTORY_LIMIT {
        undoStack := undoStack[1..];
      }
      redoStack := [];
      SaveKeepsHistoryValid(old(Stacks()), state, false);
    }

    /** `setCursor(index)` followed by `selectionStart = selectionEnd =
        cursor`, the way every edit ends. */
    method CollapseTo(index: int)
      modifies this`cursor, this`selectionStart, this`selectionEnd
      ensures cursor == ClampCursor(index, |text|) && selectionStart == cursor && selectionEnd == cursor
    {
      SetCursor(index);
      selectionStart, selectionEnd := cursor, cursor;
    }

    /** `applyState` */
    method ApplyState(s: Snapshot)
      modifies this`text, this`lines, this`cursor, this`selectionStart, this`selectionEnd
      ensures Current() == Restore(s) && lines == Split(text, '\n')
    {
      text := s.text;
      selectionStart := s.selectionStart;
      selectionEnd := s.selectionEnd;
      lines := Split(text, '\n');
      SetCursor(s.cursor);
    }

    /** The `text.slice(0, start) + ins + text.slice(end)` rewrite every
        edit performs, followed by `updateLines`. */
    method SpliceText(start: nat, end: nat, ins: string)
      requires start <= end && start <= |text|
      modifies this`text, this`lines
      ensures text == Splice(old(text), start, Min(end, |old(text)|), ins)
      ensures lines == Split(text, '\n')
    {
      text := Slice(text, 0, start) + ins + SliceFrom(text, end);
      lines := Split(text, '\n');
    }

    /** `deleteSelection(save)`: remove the selected characters and leave
        caret and selection at the start of the removed range. */
    method DeleteSelection(save: bool)
      requires Valid()
      modifies this`text, this`lines, this`cursor, this`selectionStart, this`selectionEnd, this`undoStack, this`redoStack
      ensures Valid()
      ensures !old(HasSelection()) ==> Current() == old(Current())
      ensures old(HasSelection()) ==> var r := old(SelectionRange());
        text == Splice(old(text), r.start, r.end, "")
        && cursor == r.start && selectionStart == r.start && selectionEnd == r.start
      ensures Stacks() == if old(HasSelection()) && save then Save(old(Stacks()), old(Current()), old(isUndoingOrRedoing)) else old(Stacks())
    {
      if !HasSelection() {
        return;
      }
      if save {
        SaveState();
      }
      RemoveSelection();
    }

    /** The part of `deleteSelection` after the state was recorded. */
    method RemoveSelection()
      requires TextValid() && HasSelection()
      modifies this`text, this`lines, this`cursor, this`selectionStart, this`selectionEnd
      ensures TextValid()
      ensures var r := old(SelectionRange());
        text == Splice(old(text), r.start, r.end, "")
        && cursor == r.start && selectionStart == r.start && selectionEnd == r.start
    {
      var r := SelectionRange();
      SpliceText(r.start, r.end, "");
      CollapseTo(r.start);
    }

    /** `insertText`: record the state, replace the selection by the typed
        text (or type at the caret), and put the caret right after it. */
    method InsertText(newText: string)
      requires Valid()
      modifies this`text, this`lines, this`cursor, this`selectionStart, this`selectionEnd, this`undoStack, this`redoStack
      ensures Valid()
      ensures old(HasSelection()) ==> var r := old(SelectionRange());
        var base := Splice(old(text), r.start, r.end, "");
        text == Typed(base, r.start, newText, isOverwriteMode) && cursor == r.start + |newText|
      ensures !old(HasSelection()) ==>
        text == Typed(old(text), old(cursor), newText, isOverwriteMode) && cursor == old(cursor) + |newText|
      ensures selectionStart == cursor && selectionEnd == cursor
      ensures Stacks() == Save(old(Stacks()), old(Current()), old(isUndoingOrRedoing))
    {
      SaveState();
      if HasSelection() {
        DeleteSelection(false);
      }
      TypeAtCaret(newText);
    }

    /** The part of `insertText` after the selection is gone. */
    method TypeAtCaret(newText: string)
      requires TextValid()
      modifies this`text, this`lines, this`cursor, this`selectionStart, this`selectionEnd
      ensures TextValid()
      ensures text == Typed(old(text), old(cursor), newText, isOverwriteMode)
      ensures cursor == old(cursor) + |newText| && selectionStart == cursor && selectionEnd == cursor
    {
      var prevCursor := cursor;
      if isOverwriteMode && cursor < |text| && newText != "\n" {
        var end := prevCursor + |newText|;
        SpliceText(prevCursor, end, newText);
      } else {
        SpliceText(prevCursor, prevCursor, newText);
      }
      CollapseTo(prevCursor + |newText|);
    }

    /** `handleBackspace`: remove the selection, or the character before
        the caret (one indent unit at an indent boundary, which with an
        indent size of one is again one character). */
    method HandleBackspace()
      requires Valid()
      modifies this`text, this`lines, this`cursor, this`selectionStart, this`selectionEnd, this`undoStack, this`redoStack
      ensures Valid()
      ensures old(HasSelection()) ==> var r := old(SelectionRange());
        text == Splice(old(text), r.start, r.end, "") && cursor == r.start && selectionStart == r.start
      ensures !old(HasSelection()) && old(cursor) == 0 ==> Current() == old(Current())
      ensures !old(HasSelection()) && old(cursor) > 0 ==>
        text == Splice(old(text), old(cursor) - 1, old(cursor), "")
        && cursor == old(cursor) - 1 && selectionStart == cursor
      ensures Stacks() == if !old(HasSelection()) && old(cursor) == 0 then old(Stacks())
        else Save(old(Stacks()), old(Current()), old(isUndoingOrRedoing))
    {
      if HasSelection() {
        DeleteSelection(true);
        return;
      }
      if cursor == 0 {
        return;
      }
      SaveState();
      DeleteBeforeCaret();
    }

    /** The part of `handleBackspace` after the state was recorded, with
        no selection and the caret past the start. */
    method DeleteBeforeCaret()
      requires TextValid() && cursor > 0
      modifies this`text, this`lines, this`cursor, this`selectionStart, this`selectionEnd
      ensures TextValid()
      ensures text == Splice(old(text), old(cursor) - 1, old(cursor), "")
      ensures cursor == old(cursor) - 1 && selectionStart == cursor
    {
      var deleteSize := BackspaceSize(lines, cursor);
      var prevCursor := cursor;
      SpliceText(prevCursor - deleteSize, prevCursor, "");
      CollapseTo(prevCursor - deleteSize);
    }

    /** `handleDelete`: remove the selection, or the character after the
        caret; the caret stays. */
    method HandleDelete()
      requires Valid()
      modifies this`text, this`lines, this`cursor, this`selectionStart, this`selectionEnd, this`undoStack, this`redoStack
      ensures Valid()
      ensures old(HasSelection()) ==> var r := old(SelectionRange());
        text == Splice(old(text), r.start, r.end, "") && cursor == r.start && selectionStart == r.start
      ensures !old(HasSelection()) && old(cursor) == |old(text)| ==> Current() == old(Current())
      ensures !old(HasSelection()) && old(cursor) < |old(text)| ==>
        text == Splice(old(text), old(cursor), old(cursor) + 1, "")
        && cursor == old(cursor) && selectionStart == old(selectionStart)
      ensures Stacks() == if !old(HasSelection()) && old(cursor) == |old(text)| then old(Stacks())
        else Save(old(Stacks()), old(Current()), old(isUndoingOrRedoing))
    {
      if HasSelection() {
        DeleteSelection(true);
        return;
      }
      if cursor < |text| {
        SaveState();
        SpliceText(cursor, cursor + 1, "");
      }
    }

    /** `undo` */
    method Undo()
      requires Valid()
      modifies this`text, this`lines, this`cursor, this`selectionStart, this`selectionEnd, this`undoStack, this`redoStack, this`isUndoingOrRedoing
      ensures Valid()
      ensures Step(Current(), Stacks()) == UndoStep(old(Current()), old(Stacks()))
      ensures isUndoingOrRedoing == (old(isUndoingOrRedoing) && old(undoStack) == [])
    {
      if |undoStack| == 0 {
        return;
      }
      isUndoingOrRedoing := true;
      var currentState := Current();
      redoStack := redoStack + [currentState];
      var top := undoStack[|undoStack| - 1];
      undoStack := undoStack[..|undoStack| - 1];
      ApplyState(top);
      isUndoingOrRedoing := false;
    }

    /** `redo` */
    method Redo()
      requires Valid()
      modifies this`text, this`lines, this`cursor, this`selectionStart, this`selectionEnd, this`undoStack, this`redoStack, this`isUndoingOrRedoing
      ensures Valid()
      ensures Step(Current(), Stacks()) == RedoStep(old(Current()), old(Stacks()))
      ensures isUndoingOrRedoing == (old(isUndoingOrRedoing) && old(redoStack) == [])
    {
      if |redoStack| == 0 {
        return;
      }
      isUndoingOrRedoing := true;
      var currentState := Current();
      undoStack := undoStack + [currentState];
      var top := redoStack[|redoStack| - 1];
      redoStack := redoStack[..|redoStack| - 1];
      ApplyState(top);
      isUndoingOrRedoing := false;
    }
  }
}
