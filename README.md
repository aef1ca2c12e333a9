# Outline editor core, modelled in Dafny

This project models the core of a canvas-based outline editor written in JavaScript. The model has five parts:

- **The outline document engine** (`src/editor/editor.js`). The document is a flat list of lines. Each line has an id, a kind (text or image), a text, an indent and a collapsed flag. The tree structure comes from the indents alone. On top of the lines sit:
  - one caret, an optional selection and a selection anchor;
  - the editing operations: typing, line break, bracket pair, image line, Backspace and Delete, indent change, collapse toggle, and moving lines and blocks;
  - a bounded snapshot undo/redo history;
  - a document version counter.

  `editor-core.js` is the text-only predecessor of this engine and runs the same algorithms. Its inline `findWordBoundary` is modelled separately, because it differs.
- **Search and replace** (`search-controller.js`):
  - the line-by-line match scan (literal, or over an abstract regular-expression matcher) with a timeout;
  - cyclic match navigation and the choice of the active match;
  - the `$`-template expansion of the replacement;
  - replacing the current match or all matches.
- **Input helpers:**
  - word boundaries (`src/input-handler/word-boundary.js`);
  - the leading-space indent decision and committed-text processing (`src/input-handler/text-input.js`);
  - `clamp` and `normalizeNewlines` (`src/util/index.js`).
- **Snapshot reconciliation** (`src/collaboration/loro-document.js`). The collaborative document keeps its lines in a Loro movable list. `applySnapshot` reconciles that list with an editor snapshot by line id, and `toSnapshot` reads it back. The module also covers the value normalizers, including JavaScript's `Number()` conversion, and the peer-id normalizer.
- **The two legacy flat-string editors** (`script.js`, `main.js`). Each keeps one text string, an integer caret and a selection. The model covers:
  - offset ↔ (row, column) conversion;
  - typing, overwrite and deletion;
  - space indentation;
  - in `script.js`, a bounded undo stack.

Each source file becomes one module:

| module | file | models |
|---|---|---|
| `JsString` | `js_string.dfy` | `String.prototype` operations the sources use |
| `Util` | `util.dfy` | `src/util/index.js` |
| `WordBoundary` | `word_boundary.dfy` | both `findWordBoundary` variants |
| `TextInput` | `text_input.dfy` | `src/input-handler/text-input.js` |
| `Outline` | `outline.dfy` | lines, points and the tree queries of the engine |
| `Edits` | `edits.dfy` | each edit as a function on the lines, with its properties |
| `Segments` | `segments.dfy` | the tokenizer `getRenderedSegments` |
| `Editor` | `editor.dfy` | class `Editor`, the state-changing engine, proved against the `Edits` and `Outline` functions |
| `Search` | `search.dfy` | `computeMatches` |
| `ReplacementPattern` | `replacement.dfy` | `applyReplacementPattern` |
| `SearchPanel` | `search_controller.dfy` | class `SearchController` and the pure parts of the controller |
| `Loro` | `loro.dfy` | normalizers, reconciliation functions, class `LoroDocument` |
| `FlatText` | `flat_text.dfy` | the offset arithmetic shared by the legacy editors |
| `ScriptEditor` | `script_editor.dfy` | class `Editor` of `script.js` |
| `MainEditor` | `main_editor.dfy` | class `Editor` of `main.js` |

Code that changes state in place is modelled the same way:

- It becomes a class whose fields are the fields the source updates. Its methods have `modifies` clauses.
- Each loop of the source is a `while` loop with invariants.
- Each method's `ensures` ties the new state to a specification function. For example, `Editor.Editor.InsertText` ends in `InsertTextLines`, and `Loro.LoroDocument.ApplySnapshot` ends in `Reconcile`. The lemmas then state what the source promises about that function.

## Model

| member | source | states |
|---|---|---|
| Outline.LineLength | src/editor/editor.js:166-172 | an image line has length 1, a text line the length of its text |
| Outline.ComparePoints | src/editor/editor.js:1779-1784 | negative, zero or positive exactly as the first point is before, equal to or after the second in (line, unit) order |
| Outline.NormalizeSelection | src/editor/editor.js:1763-1777 | the same two end points, the earlier one first |
| Outline.NormalizeIgnoresOrder | src/editor/editor.js:1763-1777 | swapping the raw end points gives the same normalized selection |
| Outline.HasSelection | src/editor/editor.js:1786-1790 | true exactly when a selection is present and its ends differ |
| Outline.SelectionLineRange | src/editor/editor.js:1754-1761 | none without a selection, else the first and last line the normalized selection touches |
| Outline.DescendantEnd | src/editor/editor.js:1912-1922 | `i < r <= n`; every line strictly between is deeper than line `i`; line `r` (if any) is not |
| Outline.HasChildren | src/editor/editor.js:1906-1910 | true exactly when the next line is deeper, i.e. when the block of `i` reaches past `i + 1` |
| Outline.Parent | src/editor/editor.js:1896-1904 | the nearest earlier line with a strictly smaller indent, or none; every line between is not shallower |
| Outline.VisibleIffOutsideCollapsedBlocks | src/editor/editor.js:1885-1894 | the parent-chain walk of `isVisible` holds exactly when the line lies inside the block of no collapsed line |
| Outline.VisibleIndicesSpec | src/editor/editor.js:1869-1879 | the visible indices are strictly increasing, in range, and are exactly the visible lines |
| Outline.UniqueUnderPermutation | src/editor/editor.js:1627-1629 | rearranging the lines (same multiset) keeps line ids unique |
| Edits.CollapseRange | src/editor/editor.js:1216-1239 | the start line keeps its head and receives the end line's tail; the lines after it up to the end line are removed |
| Edits.CollapseRangeIds | src/editor/editor.js:1216-1239 | the collapsed document is the joined line spliced over the selected lines, with ids unique and below the id bound |
| Edits.CollapseRemovesSelectedText | src/editor/editor.js:1216-1239 | the selected lines joined by "\n" are the collapsed line's head, then the `getSelectedText` text, then its tail, so collapsing removes exactly the selected text |
| Edits.CollapseKeepsEnds | src/editor/editor.js:1224-1234 | the collapsed line is the start line's head followed by the end line's tail |
| Edits.TypedBlockShape | src/editor/editor.js:895-908 | typing k newlines gives k + 1 lines: the old line with new text, then fresh text lines with the line's indent and consecutive ids |
| Edits.TypedCaretInBlock | src/editor/editor.js:895-908 | the caret lands within the last typed line |
| Edits.TypedBlockSplices | src/editor/editor.js:884-908 | the typed block joined by "\n" is head + text + tail; the caret has head and the typed text in front of it and the tail behind it |
| Edits.PiecesSplice | src/editor/editor.js:895-908 | with two or more pieces the block joined by "\n" is head + pieces + tail, and its last line holds the last piece and the tail |
| Edits.InsertTextPlacesCaret | src/editor/editor.js:854-909 | on a text line the block replaces the line; beside an image the new lines go in front of it (caret at 0) or behind it and the image is kept; the caret is in the document |
| Edits.InsertTextIds | src/editor/editor.js:895-908 | typing keeps ids unique: the rewritten line keeps its id and the new lines take the next fresh ids |
| Edits.TypedBesideImage | src/editor/editor.js:862-883 | the lines typed beside an image, joined by "\n", are the typed text with CRLF normalized, as text lines with the image's indent |
| Edits.ImagePlacement | src/editor/editor.js:951-1025 | the image line sits at `ImageIndex` with the caret line's indent; the document grows by the new lines less a replaced empty line; the caret lands inside it |
| Edits.ImageRemoval | src/editor/editor.js:976-1001 | taking the image out again gives the old lines back, except that an empty text line is gone and a cut line is split into head and tail |
| Edits.ImageLinesIds | src/editor/editor.js:951-1025 | inserting an image keeps ids unique; the new lines take the next `ImageIdCount` ids |
| Edits.LineBreakLines | src/editor/editor.js:1027-1062 | a line break adds exactly one line |
| Edits.LineBreakCaretIn | src/editor/editor.js:1052-1061 | the caret goes to the start of the new line, which has the fresh id and the override indent or the line's own |
| Edits.LineBreakSplits | src/editor/editor.js:1035-1061 | on a text line the head stays and the tail moves to the new line (together the old text); on an image line the new line is empty and the other lines stay |
| Edits.LineBreakIds | src/editor/editor.js:1052-1061 | a line break keeps ids unique |
| Edits.BracketLines | src/editor/editor.js:1064-1092 | "[" + inner + "]" is inserted at the caret of a text line and nothing else changes |
| Edits.RemoveLine | src/editor/editor.js:1125-1136 | one line fewer; the lines before and after are kept in order |
| Edits.DeleteBefore | src/editor/editor.js:1116-1124 | the caret line loses the unit before the caret; nothing else changes |
| Edits.DeleteAfter | src/editor/editor.js:1181-1188 | the caret line loses the unit after the caret; nothing else changes |
| Edits.MergeWithPreviousRemovesOneLine | src/editor/editor.js:1141-1154 | the Backspace merge removes exactly one line, whatever the indents below, and the previous line ends with the merged text from its old length on |
| Edits.MergeNextBlockRemovesDeeperLines | src/editor/editor.js:1199-1206 | Delete at a line end removes the next line and every following line deeper than min(indent(i), indent(i+1)), and nothing else |
| Edits.DeleteAtLineEndDropsGrandchild | tests/editor-delete.test.js:36-52 | in the test's outline, the code as written leaves the single line "ParentChild header": the grandchild is removed |
| Edits.DeleteAtLineEndKeepsGrandchild | tests/editor-delete.test.js:36-52 | the intended delete (removing the next line alone) leaves "ParentChild header" and "Grandchild" with indent 2, as the test expects |
| Edits.ImageDeletion | src/editor/editor.js:1161-1180 | the image line goes; the caret stays at its index (or moves to the new last line) with a clamped unit index; an emptied document gets a fresh empty text line |
| Edits.BackspaceShape | src/editor/editor.js:1094-1155 | Backspace never empties the document, keeps the caret inside it and removes at most one line; it does nothing only at the very start and outdents only at column 0 of an indented line |
| Edits.BackspaceIds | src/editor/editor.js:1094-1155 | Backspace keeps ids unique and below the bound |
| Edits.BackspaceAtLineStart | src/editor/editor.js:1137-1154 | at column 0 of a text line below a text line: an indented line is only outdented; otherwise it joins the previous line, one line goes and the caret is at the previous line's old end |
| Edits.DeleteShape | src/editor/editor.js:1157-1207 | Delete never empties the document, keeps the caret inside it and keeps ids unique (its one possible new line takes the fresh id) |
| Edits.Reindent | src/editor/editor.js:1495-1506 | lines in the range get indent max(0, indent + delta); nothing else changes |
| Edits.ReindentKeepsBlocksBelow | src/editor/editor.js:1491-1500 | blocks headed at or below the reindented range keep their extent |
| Edits.ReindentSameShape | src/editor/editor.js:1491-1506 | reindenting keeps every line's id and length |
| Edits.BlockChainEnd | src/editor/editor.js:1491-1500 | the `includeChildren` walk ends inside the document, past the range start and no earlier than the range end |
| Edits.BlockChainCoversDescendants | src/editor/editor.js:1491-1500 | every line the walk reindents beyond the range is deeper than some line of the range, i.e. lies in a selected line's block |
| Edits.ToggleLines | src/editor/editor.js:1516 | only the collapsed flag of the toggled line flips |
| Edits.ToggleKeepsVisibilityAbove | src/editor/editor.js:1512-1527 | toggling does not change the visibility of the toggled line or any line above it |
| Edits.ToggleSameBlocks | src/editor/editor.js:1512-1527 | toggling changes no block boundary |
| Edits.ToggleKeepsCaretVisible | src/editor/editor.js:1518-1526 | if toggling hides the caret line, the toggled line (where the caret is moved) is visible; otherwise the caret line stays visible |
| Edits.MovedLines | src/editor/editor.js:1555-1559 | the two splices of `moveLine` keep the line count |
| Edits.MovedLinesParts | src/editor/editor.js:1555-1559 | the moved range lands `delta` lines away; lines outside the old and new positions keep their places |
| Edits.MovedLinesPermutes | src/editor/editor.js:1555-1559 | moving lines only rearranges them (same multiset) |
| Edits.ShiftPointFollowsLine | src/editor/editor.js:1561-1567 | a point on a moved line still designates the same line and unit |
| Edits.PrevSiblingHead | src/editor/editor.js:1620-1625 | the backward scan stops at the nearest line above that is not deeper, and succeeds only when its indent is the same |
| Edits.MovedBlockIsSiblingSwap | src/editor/editor.js:1613-1643 | a block move keeps the line count and multiset, puts the block (head first) at the returned index and swaps it with a block whose head has the same indent; otherwise nothing |
| Edits.Relocate | src/editor/editor.js:1627-1629 | cutting `[a, b)` out and putting it back at `at` keeps the length |
| Edits.RelocatePermutes | src/editor/editor.js:1636-1638 | relocating a run of lines only reorders them |
| Editor.PushBounded | src/editor/editor.js:2036-2043 | the undo push appends the snapshot and, past the limit of 200, drops the oldest entry |
| Editor.Collapsed | src/editor/editor.js:1216-1239 | the lines and caret once a selection is collapsed; unchanged without a selection; always a valid caret |
| Editor.IndentRange | src/editor/editor.js:1486-1489 | the caret line, or the selection's line range (none exactly when there is no selection) |
| Editor.IndentEnd | src/editor/editor.js:1491-1506 | one past the last line reindented: the range end clipped to the document, or with `includeChildren` at least that |
| Editor.MoveRange | src/editor/editor.js:1531-1538 | the selection's first and last line, or the caret line twice |
| Editor.ClampPoint | src/editor/editor.js:1644-1650 | the point is in the document; an in-range line index and a point already in the document are kept |
| Editor.Editor.constructor | src/editor/editor.js:69-100 | the three sample lines with indents 0, 1 and 3, caret at (0, 0), no selection, empty history, version 0 |
| Editor.Editor.CreateLine | src/editor/editor.js:102-135 | a line with a fresh id, the text only on a text line, not collapsed |
| Editor.Editor.SetCursor | src/editor/editor.js:1644-1660 | the caret is the clamped point; with `resetSelection` the selection and anchor are dropped, otherwise kept |
| Editor.Editor.MarkDocumentVersion | src/editor/editor.js:2099-2105 | the version moves on by one |
| Editor.Editor.SaveHistory | src/editor/editor.js:2036-2043 | a snapshot of the current state is pushed (bounded at 200) and the redo stack is cleared |
| Editor.Editor.ApplySnapshot | src/editor/editor.js:2063-2081 | the state is the snapshot's and the version moves on by one |
| Editor.Editor.Undo | src/editor/editor.js:2083-2089 | nothing on an empty stack; otherwise the current state goes onto redo, the newest entry is applied and the version moves on |
| Editor.Editor.Redo | src/editor/editor.js:2091-2097 | the mirror image of `undo` |
| Editor.Editor.UndoThenRedo | src/editor/editor.js:2083-2097 | undo then redo restores lines, caret, selection, scroll offsets and both stacks; the version moves on by two |
| Editor.Editor.CollapseSelectionWithoutHistory | src/editor/editor.js:1216-1239 | nothing without a selection; otherwise the selected text goes, the caret is at the selection start, selection and anchor are cleared and the version moves on |
| Editor.Editor.DeleteSelection | src/editor/editor.js:1209-1214 | reports whether there was a selection; if so history is recorded and the selection collapsed |
| Editor.Editor.SelectAll | src/editor/editor.js:1241-1250 | the selection spans (0,0) to the end of the last line and the caret is at that end; the anchor is kept |
| Editor.Editor.GetSelectedText | src/editor/editor.js:2018-2035 | "" without a selection, else `SelectedText`: the first line's tail, middle lines and last line's head joined by "\n" |
| Editor.Editor.InsertPiecesAt | src/editor/editor.js:868-881 | the loop inserting one new text line per piece, each behind the previous one |
| Editor.Editor.SpliceTextAtCaret | src/editor/editor.js:884-908 | the text-line branch: the lines become `InsertTextLines` and one fresh id is used per newline |
| Editor.Editor.InsertText | src/editor/editor.js:854-909 | nothing for ""; otherwise history is recorded, the selection collapsed, the lines become `InsertTextLines`, the caret `InsertTextCaret`, and the version moves on |
| Editor.Editor.InsertImageAtCaret | src/editor/editor.js:976-1001 | the lines become `ImageLines` and the caret target `ImageCaret`, using `ImageIdCount` fresh ids |
| Editor.Editor.CutLineForImage | src/editor/editor.js:988-996 | the cut of a non-empty text line around the image; a tail line exists exactly when two ids are used |
| Editor.Editor.InsertImageLine | src/editor/editor.js:951-1025 | nothing without image data or source; otherwise history, collapse, `ImageLines`, `ImageCaret` and a version bump |
| Editor.Editor.BreakTextLine | src/editor/editor.js:1052-1061 | the head stays and the tail moves to a new line with the given indent |
| Editor.Editor.InsertLineBreak | src/editor/editor.js:1027-1062 | history, collapse, then `LineBreakLines` and `LineBreakCaret`, one fresh id and a version bump |
| Editor.Editor.InsertBracketPair | src/editor/editor.js:1064-1092 | history is recorded; on a text line "[" + selected text + "]" replaces the selection (caret behind "]") or "[]" is inserted (caret between); on an image line only the collapse happens |
| Editor.Editor.GetDescendantEnd | src/editor/editor.js:1912-1922 | the scan returns `DescendantEnd` |
| Editor.Editor.GetParent | src/editor/editor.js:1896-1904 | the backward scan returns `Parent` |
| Editor.Editor.HasChildrenAt | src/editor/editor.js:1906-1910 | returns `HasChildren` |
| Editor.Editor.IsVisibleAt | src/editor/editor.js:1885-1894 | the parent-chain walk returns `IsVisible` |
| Editor.Editor.GetVisibleLines | src/editor/editor.js:1869-1879 | the loop collects `VisibleIndices` |
| Editor.Editor.ChangeIndent | src/editor/editor.js:1484-1510 | nothing without a range; otherwise history is recorded, the lines become `Reindent` over `IndentEnd`, and the version moves on |
| Editor.Editor.IndentLines | src/editor/editor.js:1491-1506 | both loops produce `Reindent` of the range (with `includeChildren`, block by block) |
| Editor.Editor.ToggleCollapse | src/editor/editor.js:1512-1527 | nothing unless the line has children; otherwise history, only the flag flips, a hidden caret moves to the toggled line, and the version is not bumped |
| Editor.Editor.RevealCaret | src/editor/editor.js:1518-1526 | when the line is now collapsed and the caret line hidden, the caret goes to the toggled line with a clamped unit index; otherwise caret and selection stay |
| Editor.Editor.HandleBackspace | src/editor/editor.js:1094-1155 | a selection is deleted; otherwise the effect is `BackspaceEffect`: nothing, an outdent, or the new lines and caret |
| Editor.Editor.BackspaceOnImage | src/editor/editor.js:1098-1115 | on an image: outdent when in front of an indented image, else remove it and put the caret at the end of the line above |
| Editor.Editor.BackspaceAtTextStart | src/editor/editor.js:1125-1154 | at column 0 of a text line: remove an image line above, else outdent, else merge into the line above |
| Editor.Editor.MergePreviousLines | src/editor/editor.js:1141-1154 | the lines become `MergeWithPrevious` |
| Editor.Editor.HandleDelete | src/editor/editor.js:1157-1207 | a selection is deleted; otherwise the effect is `DeleteEffect`, using a fresh id only when the last line, an image, is deleted |
| Editor.Editor.RemoveImageLine | src/editor/editor.js:1161-1180 | the lines and caret become `ImageDeletion` |
| Editor.Editor.MergeNextLines | src/editor/editor.js:1199-1206 | the lines become `MergeNextBlock` (indent clamp, text join, block removal measured after the clamp) |
| Editor.Editor.MoveLine | src/editor/editor.js:1529-1611 | with delta 0 or a range that would leave the document, nothing; otherwise the lines are `MovedLines` and a caret on a moved line stays on the same line and unit |
| Editor.Editor.ShiftLines | src/editor/editor.js:1555-1559 | the two splices give `MovedLines` |
| Editor.Editor.ShiftCaret | src/editor/editor.js:1561-1594 | the caret, selection ends and anchor are shifted by `shiftPoint`; the caret is clamped |
| Editor.Editor.MoveBlock | src/editor/editor.js:1613-1643 | the lines become `MovedBlock`: the caret's block swapped with the same-indent sibling block, the caret on the block's new head; no sibling, no change |
| Editor.Editor.RelocateLines | src/editor/editor.js:1627-1629 | the splice pair gives `Relocate` |
| Segments.GetRenderedSegments | src/editor/editor.js:429-497 | the tokenizer loop emits exactly the segments `Tokens` specifies |
| Segments.RenderedSegmentsRebuildLine | src/editor/editor.js:429-497 | on the caret line the segments' texts concatenate to the line; on every text line the sources rebuild it and every segment carries the line's flags |
| Segments.ClosedBracketShowsLabel | src/editor/editor.js:429-497 | off the caret line a closed `[label]` is shown as `label`, and the scan continues behind `]` |
| Segments.UnclosedBracketIsPlain | src/editor/editor.js:429-497 | an unclosed "[" makes the rest of the line one plain segment |
| Segments.LinkRunsToSpace | src/editor/editor.js:429-497 | an "https://" link runs to the next white space or the line end |
| Segments.IsQuoteTrimmed | src/editor/editor.js:429-497 | a quote line is recognized on the first unit of the trimmed text |
| Segments.NextLinkIsIndexOf | src/editor/editor.js:429-497 | the link probe agrees with `indexOf("https://", p)` |
| WordBoundary.FindWordBoundary | src/input-handler/word-boundary.js:7-25 | the two loops compute `WordBoundary`; non-string text gives 0; leftward in [0, max(0, index-1)], rightward from min(len, index) to the end |
| WordBoundary.LeftwardRun | src/input-handler/word-boundary.js:11-17 | leftward, every unit from the result to max(0, index-1) has that unit's class, and the unit before the result has the other |
| WordBoundary.RightwardRun | src/input-handler/word-boundary.js:19-24 | rightward, the units passed share the target class, and the scan stops at the end or at a unit of the other class |
| WordBoundary.RightwardStopsAfterWord | src/input-handler/word-boundary.js:20-22 | rightward from just behind a word unit onto a non-word unit, the caret does not move |
| WordBoundary.CoreRightwardStuckAtLineStart | editor-core.js:1017 | with `undefined` read as a word unit, rightward from column 0 of " ab" stays at 0; with it read as non-word the caret moves to 1 |
| WordBoundary.RightwardFromStartAdvances | src/input-handler/word-boundary.js:1-5 | with `undefined` a non-word unit, a rightward scan from column 0 of a non-empty line always advances |
| TextInput.LeadingSpaceIndent | src/input-handler/text-input.js:3-18 | when it indents, it is `changeIndent(delta > 0, applyToSelection: hasSelection, includeChildren: false)` |
| TextInput.ProcessCommittedText | src/input-handler/text-input.js:20-28 | false (none) exactly for empty input; an insertion is shorter than the input by its number of "\r\n" pairs |
| TextInput.LeadingSpaceIndentSound | src/input-handler/text-input.js:4-17 | an indent is issued only at column 0, for a first line of spaces and ideographic spaces with only empty lines after it, by its number of units |
| TextInput.LeadingSpaceIndentComplete | src/input-handler/text-input.js:4-17 | every such commit at column 0 indents by its number of units |
| TextInput.NoIndentOffColumnZero | tests/editor-input.test.js:100-106 | away from column 0 every non-empty commit is inserted with CRLF normalized |
| TextInput.CommitWithoutCrlf | src/input-handler/text-input.js:20-28 | a commit without CR is inserted unchanged unless it has the indent shape at column 0 |
| TextInput.IdeographicSpaceCommit | tests/editor-input.test.js:32-40 | U+3000 at column 0 indents by one; at column 2 it is inserted |
| TextInput.PlainCommit | tests/editor-input.test.js:84-90 | "abc" is inserted |
| TextInput.SpaceWithContentCommit | tests/editor-input.test.js:92-98 | a space followed by a non-empty line is inserted verbatim |
| Util.Clamp | src/util/index.js:1-15 | the result lies between the bounds in either order; a value inside is kept; otherwise the violated bound |
| Util.ClampIdempotent | src/util/index.js:5-14 | clamping twice is clamping once, and the order of the bounds does not matter |
| Util.NormalizeNewlines | src/util/index.js:17-22 | the length drops by the number of "\r\n" pairs replaced; text without one is unchanged; "\n" count kept |
| Util.NormalizeNewlinesNotIdempotent | src/util/index.js:17-22 | "\r\r\n" becomes "\r\n", which a second pass turns into "\n" |
| JsString.Slice | src/editor/editor.js:1183-1185 | `slice` over in-range positions is that subsequence; no slice is longer than the text |
| JsString.IndexOf | search-controller.js:532 | the first occurrence at or after the clamped start, or -1 |
| JsString.IndexOfFirst | search-controller.js:545 | there is no occurrence between the start and the result, and none at all when the result is -1 |
| JsString.JoinSplit | script.js:440-442 | joining the pieces of `split("\n")` gives the text back |
| JsString.SplitJoin | script.js:440-442 | splitting a join of separator-free pieces gives the pieces back |
| JsString.SplitCount | script.js:440-442 | a split has one piece more than there are separators |
| JsString.Trim | src/collaboration/loro-document.js:18-24 | the trimmed text neither starts nor ends with white space |
| FlatText.PosOf | script.js:644-657 | the row is inside the document, the column at most that row's length (and non-negative for a non-negative offset) |
| FlatText.ClampCursor | script.js:460-461 | `max(0, min(len, index))`: inside [0, len], equal to an in-range index |
| FlatText.PosRoundTrip | script.js:644-665 | for 0 <= index <= len, `getIndexFromPos(getPosFromIndex(index)) == index` with the column inside its row |
| FlatText.IndexRoundTrip | main.js:311-330 | every position inside a row names an offset inside the text that converts back to it |
| FlatText.SpliceUndo | script.js:430-438 | splicing the removed characters back over the inserted ones gives the original text |
| FlatText.PosFromIndex | script.js:644-657 | the accumulator loop computes `PosOf` |
| FlatText.IndexFromPos | script.js:659-665 | the accumulator loop computes `IndexAt` |
| Search.LimitStart | search-controller.js:522-525 | without a scope every line is searched from column 0 (with one, its first line from the scope's start column) |
| Search.LimitEnd | search-controller.js:526-529 | without a scope every line is searched to its end (with one, its last line to the scope's end column) |
| Search.TimeoutMessage | search-controller.js:557-571 | the timeout error starts with the fixed prefix |
| Search.SearchLines | search-controller.js:431-574 | an error comes with no matches; the empty query gives no matches and no error |
| Search.SearchSound | search-controller.js:431-574 | every match lies on a scope line inside its limits; matches come in (line, start) order and do not overlap; a literal match is the query up to case |
| Search.LiteralSearchComplete | search-controller.js:513-555 | a literal search that does not time out misses no occurrence inside the scope: each one is a match or overlaps one |
| Search.LiteralFromComplete | search-controller.js:532-550 | the literal hit loop is greedy from the left |
| Search.LineMatchesSound | search-controller.js:467-555 | a line's hits lie within its limits, are non-empty, ordered, and a literal hit is the query up to case |
| Search.CheckTimeout | search-controller.js:450-457 | the clock is read once more; timed out exactly when that reading is past the deadline |
| Search.LiteralScan | search-controller.js:532-550 | the literal loop of one line yields the hits `LiteralFrom` specifies, or times out exactly when the checks exceed the deadline |
| Search.NextRegexHit | search-controller.js:485-507 | one `exec` call: the hit kept (non-empty, within limits) and where the next call starts |
| Search.RegexScan | search-controller.js:483-508 | the `exec` loop yields the hits `RegexFrom` specifies, or times out as above |
| Search.SearchLinesLoop | search-controller.js:515-554 | either every line is searched in time and the matches are `MatchesBetween`, or the checks needed exceed the deadline |
| Search.ComputeMatches | search-controller.js:431-574 | the method returns `SearchLines`: no match for the empty query, the compile error, or the scan result, and on a timeout the error without a partial list |
| ReplacementPattern.ApplyReplacementPattern | search-controller.js:634-694 | the loop computes the template expansion; literal mode returns the pattern |
| ReplacementPattern.ExpandNoDollar | search-controller.js:636 | a template without "$" expands to itself, so the early return agrees with the loop |
| ReplacementPattern.EscapeExpansions | search-controller.js:644-663 | "$$", "$&", "$\`" and "$'" give "$", the match, the text before it and the text after it |
| ReplacementPattern.LoneDollar | search-controller.js:691 | a final "$", or one before a unit that starts no expansion, is copied |
| ReplacementPattern.NamedGroupExpansion | search-controller.js:664-673 | "$<name>" gives the named group's value, or nothing, and consumes through ">" |
| ReplacementPattern.UnclosedNamedGroup | search-controller.js:664-674 | without a closing ">", "$<" is copied |
| ReplacementPattern.OneDigitGroup | search-controller.js:675-688 | "$d" not followed by a digit gives group d, or "" for 0, a missing or an unmatched group |
| ReplacementPattern.TwoDigitGroup | search-controller.js:675-688 | "$dd" gives group dd; a third digit is copied |
| ReplacementPattern.MissingGroupIsEmpty | search-controller.js:682-685 | "$0" and a group the match lacks give "" |
| ReplacementPattern.ExpandQuote | search-controller.js:644-648 | a template with every "$" doubled expands to the text itself |
| SearchPanel.GroupMatchesByLine | search-controller.js:576-589 | the map from line to entries (start, end, index into the match list) |
| SearchPanel.EntrySound | search-controller.js:576-589 | every entry of a line names a match on that line with the same range |
| SearchPanel.EntryComplete | search-controller.js:576-589 | every match has an entry under its line |
| SearchPanel.EntriesIncreasing | search-controller.js:576-589 | a line's entries keep the order of the match list |
| SearchPanel.JsRem | search-controller.js:629 | JavaScript's `%` agrees with Euclidean remainder on a non-negative dividend |
| SearchPanel.JsRemSign | search-controller.js:629 | JavaScript's `%`: the remainder has the sign of the dividend, is smaller than the divisor in magnitude and is congruent to the dividend |
| SearchPanel.StepIndexMoves | search-controller.js:621-632 | from no match, forward picks the first and backward the last; from a match, the neighbour with wrap-around; always inside [0, n) |
| SearchPanel.StepForwardBack | search-controller.js:621-632 | a step forward then back returns to the same match |
| SearchPanel.FindSameRangeFirst | search-controller.js:413-418 | `findIndex` returns the first match with the same range, and -1 only when there is none |
| SearchPanel.NextActivePreferred | search-controller.js:406-411 | a valid preferred index becomes active |
| SearchPanel.NextActiveFollowsPrevious | search-controller.js:412-422 | otherwise the first match with the previous active range becomes active, else the first match |
| SearchPanel.CaptureSelectionScope | search-controller.js:327-339 | the editor's selection in document order when it is not empty, else the scope in use |
| SearchPanel.ScopeFor | search-controller.js:362-369 | with "in selection" checked, the captured scope; otherwise the whole document |
| SearchPanel.RebuildLine | search-controller.js:741-761 | `replaceAll`'s per-line loop: gaps of the original text and each match's replacement, in order |
| SearchPanel.RebuiltKeepsGaps | search-controller.js:746-759 | replacing each match by the text it covers gives the line back, so text outside matches is kept |
| SearchPanel.SortByStartAscending | search-controller.js:745 | the sort orders by start and keeps every match |
| SearchPanel.SortByStartKeepsSorted | search-controller.js:745 | matches already in start order are left as they are |
| SearchPanel.ListByLine | search-controller.js:733-739 | the map from line to its matches, with the keys in first-seen order |
| SearchPanel.ReplaceAllLines | search-controller.js:725-766 | `replaceAll` keeps the line count |
| SearchPanel.ReplaceAllKeepsUnmatchedLines | search-controller.js:741-761 | a line that no match lies on is left as it was |
| SearchPanel.RewriteListedLines | search-controller.js:741-761 | the rewrite loop produces `ReplaceAllLines` |
| SearchPanel.SpliceIsSingleRebuild | search-controller.js:705-717 | replacing the current match alone rewrites its line as `replaceAll` would with that one match |
| SearchPanel.MatchSelectionInDocument | search-controller.js:608-619 | a match of a text line puts the caret at its end and the selection over it, inside the document |
| SearchPanel.ReplaceLeavesCaretPastLine | search-controller.js:696-723 | with "aaa" replaced by "", the line becomes empty while the caret that selected the match stays at (0, 3), outside the line |
| SearchPanel.SearchController.constructor | search-controller.js:9-69 | closed panel, no matches, no active match, no error, no scope |
| SearchPanel.SearchController.EnsureMatchSelection | search-controller.js:608-619 | caret at the match end, selection over the match, anchor at its start |
| SearchPanel.SearchController.SetActiveMatch | search-controller.js:591-606 | an index outside the list clears the active match and leaves the editor alone; otherwise that match is active and selected |
| SearchPanel.SearchController.Step | search-controller.js:621-632 | nothing without matches or with an error; otherwise the `StepIndex` match becomes active and selected |
| SearchPanel.SearchController.ClearMatches | search-controller.js:341-354 | no matches, no active match, no error |
| SearchPanel.SearchController.UpdateResults | search-controller.js:356-429 | nothing while closed; otherwise the scope is captured, the search result shown, and the active match chosen by `NextActiveIndex` |
| SearchPanel.SearchController.ReplaceCurrent | search-controller.js:696-723 | with an active match on an existing line, that line gets the match replaced, history recorded, version +1, search refreshed with the preferred index; otherwise nothing |
| SearchPanel.SearchController.ReplaceAll | search-controller.js:725-766 | on an open panel with matches and no error, the lines become `ReplaceAllLines`, one history entry, version +1, search refreshed; otherwise nothing |
| Loro.EnsureIndex | src/collaboration/loro-document.js:7-16 | the floor of a positive finite `Number(value)`, else 0 |
| Loro.EnsureNumber | src/collaboration/loro-document.js:18-24 | `Number(value)` when finite, else 0 |
| Loro.NormalizersIdempotent | src/collaboration/loro-document.js:3-28 | normalizing a normalized value changes nothing |
| Loro.IndexValueRoundTrip | src/collaboration/loro-document.js:7-16 | an index written as a number reads back as itself |
| Loro.EnsureIndexOfDigits | src/collaboration/loro-document.js:7-16 | a digit string is read as its decimal value |
| Loro.EnsureIndexOfFraction | src/collaboration/loro-document.js:7-16 | "w.f" is read and floored to w |
| Loro.FloorIndex | src/collaboration/loro-document.js:7-16 | a number in [d, d + 1) gives d |
| Loro.EnsureNumberOfFraction | src/collaboration/loro-document.js:18-24 | "w.f" reads as w + f/10 |
| Loro.LeadingSpaceIgnored | src/collaboration/loro-document.js:18-24 | leading white space is trimmed before the number is read |
| Loro.SingletonArrayIsElement | src/collaboration/loro-document.js:18-24 | an array of one number, bigint, string or array converts as that element |
| Loro.EnsureNumberOfExponent | src/collaboration/loro-document.js:18-24 | "-dEe" reads as -(d * 10^e) |
| Loro.EnsureNumberOfHex | src/collaboration/loro-document.js:18-24 | "0x1F" reads as 31 |
| Loro.UnsignedLiteral | src/collaboration/loro-document.js:18-24 | a trimmed string starting with a digit and without radix prefix is read as a decimal literal |
| Loro.ClonePoint | src/collaboration/loro-document.js:30-38 | a point exactly for an object, with both indices normalized by `ensureIndex` |
| Loro.CloneSelection | src/collaboration/loro-document.js:40-50 | a selection exactly when the value and both end points are objects, each end cloned |
| Loro.CloneRoundTrip | src/collaboration/loro-document.js:30-50 | cloning a point or selection the document wrote gives it back |
| Loro.StripZeros | src/collaboration/loro-document.js:77-79 | removing the leading zeros never lengthens the text and leaves a non-empty text non-empty |
| Loro.NormalizePeerId | src/collaboration/loro-document.js:67-85 | a peer id exists exactly for a non-negative bigint, a non-negative finite number or an all-digit string; it is never empty; a bigint's id is its canonical decimal string and a digit string's id is canonical with the same value (a number's id prints exact digits; see "## Left out") |
| Loro.CanonicalPeerId | src/collaboration/loro-document.js:67-85 | a canonical digit string is its own peer id |
| Loro.PeerIdCanonical | src/collaboration/loro-document.js:67-85 | every peer id, except that of a number from 10^21 on, is canonical and normalizes to itself |
| Loro.ExponentialPeerId | src/collaboration/loro-document.js:75 | a number from 10^21 on gives an exponential-notation id, which normalizes to nothing |
| Loro.PeerIdOfString | src/collaboration/loro-document.js:67-85 | a digit string keeps its value; any other string gives no peer id |
| Loro.PeerIdForms | src/collaboration/loro-document.js:67-85 | for whole numbers up to 2^53, a number, the same bigint and its decimal string name the same peer |
| Loro.PeerIdLeadingZeros | src/collaboration/loro-document.js:67-85 | "007" normalizes to "7" |
| Loro.FindFrom | src/collaboration/loro-document.js:215-226 | the first line map with the id from a position on, or none when no later entry has it |
| Loro.FindLineIn | src/collaboration/loro-document.js:215-226 | nothing for the empty id |
| Loro.SetField | src/collaboration/loro-document.js:228-236 | afterwards the key holds the value and every other key is unchanged; no write when the value is already there |
| Loro.Insert | src/collaboration/loro-document.js:147 | the list grows by one with the item at the index and the rest kept in order |
| Loro.Move | src/collaboration/loro-document.js:150 | the entry at `from` ends up at `to`; the others keep their order |
| Loro.Place | src/collaboration/loro-document.js:141-157 | a placed snapshot line sits at its index as a line map |
| Loro.WrittenRecord | src/collaboration/loro-document.js:164-168 | a written line map reads back as the normalized snapshot line |
| Loro.ReconcileStepSettled | src/collaboration/loro-document.js:137-171 | each snapshot line keeps the list settled: its prefix holds the snapshot's lines so far, with distinct ids |
| Loro.PruneStepAt | src/collaboration/loro-document.js:173-179 | one pass of the reverse loop keeps or splices out exactly that entry |
| Loro.SettledReadsBack | src/collaboration/loro-document.js:173-179 | the reverse loop keeps exactly the first snapshot-length entries, which read back as the snapshot's lines |
| Loro.ApplyReconciles | src/collaboration/loro-document.js:137-179 | for a well-keyed snapshot and line maps with distinct ids nothing throws and the list reads back as exactly the snapshot's lines, normalized, in order |
| Loro.ThrownStays | src/collaboration/loro-document.js:137-171 | after a Loro call throws, the rest of the first loop does nothing |
| Loro.LoroDocument.constructor | src/collaboration/loro-document.js:88-106 | the normalized peer id or a drawn one, an empty list and version 0 |
| Loro.LoroDocument.ImportUpdate | src/collaboration/loro-document.js:119-123 | only a byte array is imported, and then the version moves on by one |
| Loro.LoroDocument.FindLine | src/collaboration/loro-document.js:215-226 | the loop returns `FindLineIn` |
| Loro.LoroDocument.SetIfChanged | src/collaboration/loro-document.js:228-236 | the entry becomes `SetField` of it; a write is counted only when the value differs |
| Loro.LoroDocument.PlaceLine | src/collaboration/loro-document.js:138-170 | the body of the first loop is one `Step` of `Reconcile` |
| Loro.LoroDocument.DeleteUnseen | src/collaboration/loro-document.js:173-179 | the reverse loop leaves `PruneFrom`: the entries that are line maps with a seen id |
| Loro.LoroDocument.ApplySnapshot | src/collaboration/loro-document.js:129-188 | nothing without a lines array; otherwise the list is `Reconcile` then pruned, the version moves on by one and the view state is cloned; a throwing Loro call stops it there |
| Loro.LoroDocument.ToSnapshot | src/collaboration/loro-document.js:190-213 | the line maps in order, normalized (indent >= 0, boolean collapsed), and a copy of the view state |
| ScriptEditor.Restore | script.js:571-577 | text and selection as recorded, the caret clamped into the text |
| ScriptEditor.Save | script.js:556-569 | nothing while undoing or redoing; otherwise push, drop the oldest entry beyond 100 and clear redo |
| ScriptEditor.SaveKeepsHistoryValid | script.js:556-569 | saving keeps the stacks bounded and their snapshots valid |
| ScriptEditor.UndoStep | script.js:579-591 | nothing on an empty undo stack; keeps the history valid |
| ScriptEditor.RedoStep | script.js:593-605 | nothing on an empty redo stack; keeps the history valid |
| ScriptEditor.UndoThenRedo | script.js:579-605 | undo then redo gives back text, caret, selection and both stacks |
| ScriptEditor.RedoThenUndo | script.js:579-605 | redo then undo gives back text, caret, selection and both stacks |
| ScriptEditor.TypedShape | script.js:412-423 | the text before the caret stays, the typed text follows; overwrite (not at the end, not "\n") replaces up to that many characters, insert keeps them |
| ScriptEditor.TypedUndo | script.js:412-423 | putting the overwritten characters back over the typed ones restores the text |
| ScriptEditor.BackspaceSize | script.js:248-253 | with the indent size of 1 the deletion size is 1 in both branches |
| ScriptEditor.Editor.SelectionRange | script.js:637-642 | the two ends in order; start < end exactly when there is a selection |
| ScriptEditor.Editor.constructor | script.js:3-59 | the given text, caret and selection at 0, insert mode, empty stacks |
| ScriptEditor.Editor.SetCursor | script.js:460-467 | the caret is `ClampCursor` of the request |
| ScriptEditor.Editor.SaveState | script.js:556-569 | the stacks become `Save` of the current state |
| ScriptEditor.Editor.ApplyState | script.js:571-577 | the state becomes `Restore` of the snapshot and the lines its split |
| ScriptEditor.Editor.DeleteSelection | script.js:430-438 | the selected characters are removed and caret and selection sit at the range start; the state is recorded when asked |
| ScriptEditor.Editor.InsertText | script.js:407-428 | the state is recorded, the selection removed, the text typed (`Typed`, insert or overwrite) and the caret put right after it |
| ScriptEditor.Editor.HandleBackspace | script.js:239-261 | the selection, or the character before the caret, is removed; nothing at offset 0 |
| ScriptEditor.Editor.HandleDelete | script.js:263-273 | the selection, or the character after the caret, is removed; the caret stays; nothing at the end |
| ScriptEditor.Editor.Undo | script.js:579-591 | the state and stacks become `UndoStep` of the old ones |
| ScriptEditor.Editor.Redo | script.js:593-605 | the state and stacks become `RedoStep` of the old ones |
| MainEditor.SpaceRun | main.js:393-394 | the run `^ {1,n}` matches: only spaces, at most n, stopping early only at a non-space |
| MainEditor.ReindentShape | main.js:387-395 | indenting prefixes the indent; outdenting removes only leading spaces, at most the indent width |
| MainEditor.IndentRows | main.js:385-397 | the rows in the range are re-indented and the others unchanged |
| MainEditor.IndentRowsKeepsContent | main.js:385-397 | each re-indented row keeps its content apart from leading spaces; rows outside are untouched |
| MainEditor.ReindentLoop | main.js:381-397 | the loop gives `IndentRows`, and `charsChanged` is the net change in length |
| MainEditor.OutdentThenBackspaceDuplicates | main.js:405 | outdenting "  abc" with an empty selection at 0 sets the selection end to -2, and the next Backspace leaves "aabc" |
| MainEditor.Editor.constructor | main.js:2-42 | the given text, caret and selection at 0, not dragging |
| MainEditor.Editor.SelectionRange | main.js:368-373 | the two ends in order; start < end exactly when there is a selection |
| MainEditor.Editor.SetCursor | main.js:263-265 | the caret is `ClampCursor` of the request |
| MainEditor.Editor.DeleteSelection | main.js:242-249 | removes `slice(0, start) + slice(end)`; for a selection inside the text exactly that range, the caret at its start |
| MainEditor.Editor.InsertText | main.js:231-240 | the selection is replaced by the text and the caret put right after it, with an empty selection |
| MainEditor.Editor.Backspace | main.js:117-128 | the selection is removed with the caret and collapsed selection at its start, clamped; otherwise the character before the caret goes; nothing at offset 0; a caret past the end leaves the text and is clamped to its end |
| MainEditor.Editor.Delete | main.js:129-137 | the selection is removed with the caret and collapsed selection at its start, clamped; otherwise the character after the caret goes and the caret stays |
| MainEditor.Editor.HandleArrowKeys | main.js:267-308 | Left/Right step one character within the text; Up/Down keep the column, pulled back on a shorter row, and do nothing on the first/last row; Shift extends the selection |
| MainEditor.Editor.MoveToRow | main.js:276-301 | the caret goes to the same column of the target row, or its end when shorter |
| MainEditor.Editor.ModifyIndent | main.js:376-406 | the rows from the selection start's row to its end's row are re-indented, and the selection end moves by the net change in length, unclamped |
| MainEditor.Editor.ModifyIndentClamped | main.js:376-406 | the same rows re-indented, with caret and both selection ends kept inside the new text |
| MainEditor.Editor.OnInput | main.js:94-101 | outside a composition a non-empty value is inserted at the caret |
| MainEditor.Editor.MouseDown | main.js:72-80 | the caret is the clamped hit offset, the selection collapses there and a drag starts |
| MainEditor.Editor.MouseMove | main.js:82-88 | while dragging, the caret and selection end follow the pointer; otherwise nothing changes |

## Left out

- Rendering, layout and geometry are not modelled. This covers:
  - the canvas renderer, `getCursorCoords`, `hitTest`, `getCharIndexForX`, scrolling and `scrollToCursor`;
  - image resizing, the image cache and `createImagePayload`;
  - cursor blink, focus and `invalidateLayout`.

  All of these rest on floating-point widths and the canvas API.
- Event wiring is not modelled: `bindEvents`, mouse, wheel, keyboard dispatch (`onKeydown`), IME composition, clipboard, drag and drop, and `insertImageFromFile`. They are DOM and asynchronous I/O. The operations they call are modelled.
- Caret movement by key in `src/editor/editor.js` is not modelled: `moveCursorHorizontal`, `moveCursorVertical`, `moveCursorToLineEdge`, `moveCursorToDocumentEdge`, `moveCursorByWord` and `ensureSelectionAnchor`. They depend on `preferredCursorX` and text measurement. Only the word boundary they use is modelled.
- Editor.Editor.MarkDocumentVersion: only the version bump is modelled. The other two effects of src/editor/editor.js:2099-2105 are not:
  - setting the search controller's `needsUpdate` flag;
  - `cleanupImageCache`.

  So editor edits never set the controller's `needsUpdate` in the model.
- Editor.Editor.ApplySnapshot: `snapshot.scrollLeft ?? …` (src/editor/editor.js:2076) is not modelled. A snapshot always carries both scroll offsets, because `createStateSnapshot` writes them.
- Editor.Editor.CreateLine: line ids are fresh naturals from a counter (`nextId`), not `crypto.randomUUID` strings. Only their uniqueness matters.
- `editor-core.js` is modelled through the same `Editor` class. It has the same algorithms without image lines. Its inline `findWordBoundary` is the `undefinedIsWord` variant of `WordBoundary.FindWordBoundary`.
- JsString.ToLower: case folding is ASCII-only, in place of `toLowerCase`. Full Unicode folding can change a string's length.
- Text is BMP-only; surrogate pairs are not represented. A `char` is one UTF-16 code unit from outside the surrogate range, so text such as "😀" (two code units) has no representation.
- Search.SearchLines: the regular-expression engine is abstract. `exec` is a parameter constrained only by `ExecSound` (hits lie inside the line and advance). The `RegExp` compile error is passed in as `compileError`.
- Search.CheckTimeout: the wall clock is not modelled. The deadline is the number of timeout checks that find the clock in time. The configured duration is passed in as the text the message shows, in place of the `toFixed` formatting.
- The search controller's DOM methods are not modelled: `open`, `close`, `toggle`, the layout and label updates, and the input handlers.
- SearchPanel.SearchController.ReplaceCurrent: the contract does not give back `editor.Valid()`. The source leaves the caret where it was when the rewritten line becomes shorter and no match remains. With line "aaa", query "aaa" and replacement "", the caret stays at (0,3) on the now-empty line (`SearchPanel.ReplaceLeavesCaretPastLine`). The same holds for SearchPanel.SearchController.ReplaceAll.
- Util.Clamp: JavaScript numbers are modelled as integers, so NaN and Infinity are not modelled. The `TypeError` for non-number arguments is excluded by the parameter types.
- Loro.ToNumber has three limits:
  - Numbers are exact reals. Binary64 rounding and underflow are not modelled; only the overflow to Infinity is.
  - A number's digits are exact, not the shortest round-trip digits of binary64, which differ above 2^53.
  - Plain objects are taken to have no `valueOf`/`toString` overrides.
- Loro.PeerIdForms / Loro.NormalizePeerId: a number's peer id is printed from its exact decimal digits. JavaScript prints the shortest round-trip digits of the double, which differ above 2^53: `String(Math.floor(2**60))` is "1152921504606847000", while `String(2n**60n)` is "1152921504606846976". So `PeerIdForms` states the number clause only up to 2^53, and `NormalizePeerId` is exact only there.
- Loro.LoroDocument.ApplySnapshot: the Loro movable list is a sequence of entries. Its exceptions on out-of-range `insertContainer` and `move` are a `thrown` result, after which the method stops.
- Loro.LoroDocument.constructor: `generateNumericPeerId` (random BigInt) is a parameter.
- Loro.LoroDocument.PlaceLine: `_generateFallbackId` (random UUID) is a parameter `fallbackId`.
- `getVersion`, `subscribeLocalUpdates` and `exportSnapshotBytes` are not modelled. They are plain calls into the Loro runtime.
- Parts of `script.js` are not modelled:
  - drawing, cursor blink and scrolling;
  - mouse handling and `getCursorIndexFromCoords`;
  - IME composition, and the full-width-space substitution in `onInput`;
  - `preferredCursorX`, `handleArrowKeys`, `moveCursorLine`, `handleHomeEndKeys` and `handlePageKeys`, which measure text widths;
  - `handleCommandKeys`, `onCopy` and `onPaste`, which only dispatch to modelled operations.
- Parts of `main.js` are not modelled:
  - rendering, blink and focus;
  - `getCursorCoords`, and the hit test of `getCursorIndexFromCoords` (the hit offset is a parameter of `MouseDown`/`MouseMove`);
  - `onMouseUp`;
  - the Enter and Tab dispatch of `onKeydown`, which call the modelled `InsertText` and `ModifyIndent`.
- The collaboration transport is not modelled: socket client, server and Loro runtime initialisation.

## Findings

| source | as written | input that shows it | evidently intended | confidence | as-written member | corrected member |
|---|---|---|---|---|---|---|
| editor-core.js:1017 | rightward, the target class is `isWord(text[i]) \|\| isWord(text[i - 1])`; at i = 0, `text[-1]` is `undefined`, and `/[\w_]/.test(undefined)` is true | " ab" at column 0, rightward: the caret stays at 0 | a rightward word jump from column 0 always advances, as word-boundary.js does by treating `undefined` as non-word | high (not executed) | WordBoundary.CoreRightwardStuckAtLineStart | WordBoundary.RightwardFromStartAdvances |
| src/editor/editor.js:1199-1206 | Delete at a line end clamps the next line's indent and then removes its whole block, measured after the clamp | lines "Parent" (0), "Child header" (1), "Grandchild" (2), Delete at the end of "Parent": the grandchild is removed | the next line alone is removed and its descendants are kept, as tests/editor-delete.test.js:36-52 asserts | medium (not executed) | Edits.DeleteAtLineEndDropsGrandchild | Edits.DeleteAtLineEndKeepsGrandchild |
| main.js:405 | `selectionEnd += charsChanged` is applied without a clamp, so an outdent can push the selection end below 0 | "  abc", empty selection at 0, Shift+Tab then Backspace: the text becomes "aabc" | the caret and selection ends stay inside the re-indented text | high (not executed) | MainEditor.OutdentThenBackspaceDuplicates | MainEditor.Editor.ModifyIndentClamped |

The `Editor` class models `handleDelete` as the code is written (`Edits.MergeNextBlock`). `Edits.DeleteAtLineEndKeepsGrandchild` states what the test expects.

`MainEditor.Editor.ModifyIndent` is kept as written, beside the clamped version.
