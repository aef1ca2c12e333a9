/**
 * The flat-string view shared by the two legacy canvas editors: the whole
 * document is one string, `lines` is its `split("\n")`, and a caret is a
 * character offset into the string. Both editors convert between offsets
 * and (row, column) positions with the same two accumulator loops, and
 * both clamp the caret with the same expression.
 */
module FlatText {
  import opened JsString

  /** A (row, column) position. A column is negative only when the offset
      it came from was negative. */
  datatype Pos = Pos(row: int, col: int)

  /** A selection with its two ends in order, as `getSelectionRange`
      returns it. */
  datatype Range = Range(start: int, end: int)

  /** Offset of the first character of row `row`: the rows above it, each
      followed by its newline. */
  function Offset(lines: seq<string>, row: nat): nat
    requires row <= |lines|
    decreases row
  {
    if row == 0 then 0 else Offset(lines, row - 1) + |lines[row - 1]| + 1
  }

  /** What `getPosFromIndex` returns once the scan has passed rows `0..i`. */
  function PosFrom(lines: seq<string>, index: int, i: nat): Pos
    requires |lines| >= 1 && i <= |lines|
    decreases |lines| - i
  {
    if i == |lines| then Pos(|lines| - 1, |lines[|lines| - 1]|)
    else if Offset(lines, i) + |lines[i]| + 1 > index then Pos(i, index - Offset(lines, i))
    else PosFrom(lines, index, i + 1)
  }

  /** `getPosFromIndex(index)`: the first row whose extent (with its
      newline) reaches past `index`; past the end, the end of the last row. */
  function PosOf(lines: seq<string>, index: int): (p: Pos)
    requires |lines| >= 1
    ensures 0 <= p.row < |lines| && p.col <= |lines[p.row]|
    ensures index >= 0 ==> p.col >= 0
  {
    PosBounds(lines, index, 0);
    PosFrom(lines, index, 0)
  }

  /** `getIndexFromPos(row, col)`: the rows above `row` plus `col`. A
      negative row skips the loop. */
  function IndexAt(lines: seq<string>, row: int, col: int): int
    requires row <= |lines|
  {
    Offset(lines, if row < 0 then 0 else row) + col
  }

  /** `Math.max(0, Math.min(length, index))`, the caret clamp of `setCursor`. */
  function ClampCursor(index: int, length: nat): (r: nat)
    ensures r <= length
    ensures 0 <= index <= length ==> r == index
    ensures index < 0 ==> r == 0
    ensures index > length ==> r == length
  {
    Max(0, Min(length, index))
  }

  /** `text.slice(0, start) + ins + text.slice(end)` for in-range positions. */
  function Splice(text: string, start: nat, end: nat, ins: string): (r: string)
    requires start <= end <= |text|
    ensures |r| == |text| - (end - start) + |ins|
  {
    text[..start] + ins + text[end..]
  }

  lemma {:induction false} OffsetMono(lines: seq<string>, i: nat, j: nat)
    requires i <= j <= |lines|
    ensures Offset(lines, i) + (j - i) <= Offset(lines, j)
    decreases j - i
  {
    if i < j {
      OffsetMono(lines, i, j - 1);
    }
  }

  lemma {:induction false} OffsetCons(lines: seq<string>, row: nat)
    requires 1 <= row <= |lines|
    ensures Offset(lines, row) == |lines[0]| + 1 + Offset(lines[1..], row - 1)
    decreases row
  {
    if row > 1 {
      OffsetCons(lines, row - 1);
      assert lines[1..][row - 2] == lines[row - 1];
    }
  }

  /** The joined text is one character shorter than the extent of all rows:
      the last row has no newline. */
  lemma {:induction false} JoinLength(lines: seq<string>, sep: char)
    requires |lines| >= 1
    ensures |Join(lines, sep)| + 1 == Offset(lines, |lines|)
    decreases |lines|
  {
    OffsetCons(lines, |lines|);
    if |lines| > 1 {
      JoinLength(lines[1..], sep);
    }
  }

  lemma {:induction false} PosBounds(lines: seq<string>, index: int, i: nat)
    requires |lines| >= 1 && i <= |lines|
    ensures var p := PosFrom(lines, index, i);
      0 <= p.row < |lines| && p.col <= |lines[p.row]|
      && (Offset(lines, i) <= index ==> p.col >= 0)
      && (Offset(lines, i) <= index < Offset(lines, |lines|) ==> Offset(lines, p.row) + p.col == index)
    decreases |lines| - i
  {
    if i < |lines| && Offset(lines, i) + |lines[i]| + 1 <= index {
      PosBounds(lines, index, i + 1);
    }
  }

  lemma {:induction false} PosFromOffset(lines: seq<string>, row: nat, col: nat, i: nat)
    requires i <= row < |lines| && col <= |lines[row]|
    ensures PosFrom(lines, Offset(lines, row) + col, i) == Pos(row, col)
    decreases row - i
  {
    if i < row {
      OffsetMono(lines, i + 1, row);
      PosFromOffset(lines, row, col, i + 1);
    }
  }

  /** Offset to position and back: for every offset inside the text the
      position lies inside its row and converts back to the same offset. */
  lemma PosRoundTrip(text: string, index: int)
    requires 0 <= index <= |text|
    ensures var lines := Split(text, '\n');
      var p := PosOf(lines, index);
      0 <= p.col <= |lines[p.row]| && IndexAt(lines, p.row, p.col) == index
  {
    var lines := Split(text, '\n');
    JoinSplit(text, '\n');
    JoinLength(lines, '\n');
    PosBounds(lines, index, 0);
  }

  /** Position to offset and back: every position inside a row names an
      offset inside the text, and that offset converts back to it. */
  lemma IndexRoundTrip(lines: seq<string>, row: nat, col: nat)
    requires row < |lines| && col <= |lines[row]|
    ensures IndexAt(lines, row, col) <= |Join(lines, '\n')|
    ensures PosOf(lines, IndexAt(lines, row, col)) == Pos(row, col)
  {
    PosFromOffset(lines, row, col, 0);
    OffsetMono(lines, row + 1, |lines|);
    JoinLength(lines, '\n');
  }

  /** Undoing a splice: splicing the removed characters back over the
      inserted ones gives the original text. */
  lemma SpliceUndo(text: string, start: nat, end: nat, ins: string)
    requires start <= end <= |text|
    ensures var r := Splice(text, start, end, ins);
      start + |ins| <= |r| && Splice(r, start, start + |ins|, text[start..end]) == text
  {
    var r := Splice(text, start, end, ins);
    assert r[..start] == text[..start];
    assert r[start + |ins|..] == text[end..];
    assert text == text[..start] + text[start..end] + text[end..];
  }

  /** `getPosFromIndex` (script.js and main.js): the accumulator loop. */
  method PosFromIndex(lines: seq<string>, index: int) returns (row: int, col: int)
    requires |lines| >= 1
    ensures Pos(row, col) == PosOf(lines, index)
  {
    var count := 0;
    var i := 0;
    while i < |lines|
      invariant 0 <= i <= |lines| && count == Offset(lines, i)
      invariant PosFrom(lines, index, i) == PosFrom(lines, index, 0)
    {
      var lineLength := |lines[i]| + 1;
      if count + lineLength > index {
        return i, index - count;
      }
      count := count + lineLength;
      i := i + 1;
    }
    return |lines| - 1, |lines[|lines| - 1]|;
  }

  /** `getIndexFromPos` (script.js and main.js): the accumulator loop. */
  method IndexFromPos(lines: seq<string>, row: int, col: int) returns (index: int)
    requires row <= |lines|
    ensures index == IndexAt(lines, row, col)
  {
    index := 0;
    var i := 0;
    while i < row
      invariant 0 <= i <= |lines| && (row >= 0 ==> i <= row) && (row < 0 ==> i == 0)
      invariant index == Offset(lines, i)
    {
      index := index + |lines[i]| + 1;
      i := i + 1;
    }
    return index + col;
  }
}
