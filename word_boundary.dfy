/**
 * Word-wise caret movement: `findWordBoundary` scans left or right over a
 * run of code units of one class (word / non-word). Two variants exist:
 * the module in src/input-handler/word-boundary.js, where an out-of-range
 * position (`undefined`) is a non-word unit, and the inline copy in
 * editor-core.js, whose `/[\w_]/.test(ch)` turns `undefined` into the
 * string "undefined" and so treats it as a word unit.
 */
module WordBoundary {
  import opened JsString

  /** A UTF-16 unit matched by `/[\w_]/`. */
  predicate IsWordUnit(c: char)
  {
    ('A' <= c <= 'Z') || ('a' <= c <= 'z') || ('0' <= c <= '9') || c == '_'
  }

  /** `text[i]`: a unit, or `undefined` outside the string. */
  function UnitAt(text: string, i: int): (u: Option<char>)
    ensures u.Some? <==> 0 <= i < |text|
    ensures u.Some? ==> u.value == text[i]
  {
    if 0 <= i < |text| then Some(text[i]) else None
  }

  /** `isWordChar` of word-boundary.js when `undefinedIsWord` is false, the
      inline `isWord` of editor-core.js when it is true. */
  predicate IsWord(u: Option<char>, undefinedIsWord: bool)
  {
    match u
    case None => undefinedIsWord
    case Some(c) => IsWordUnit(c)
  }

  /** The leftward loop: step left while the unit before `i` has class `target`. */
  function LeftRun(text: string, i: int, target: bool, undefinedIsWord: bool): (r: int)
    requires i >= 0
    ensures 0 <= r <= i
    ensures forall k :: r <= k < i ==> IsWord(UnitAt(text, k), undefinedIsWord) == target
    ensures r == 0 || IsWord(UnitAt(text, r - 1), undefinedIsWord) != target
    decreases i
  {
    if i > 0 && IsWord(UnitAt(text, i - 1), undefinedIsWord) == target then
      LeftRun(text, i - 1, target, undefinedIsWord)
    else
      i
  }

  /** The rightward loop: step right while the unit at `i` has class `target`. */
  function RightRun(text: string, i: int, target: bool, undefinedIsWord: bool): (r: int)
    ensures i <= r <= Max(i, |text|)
    ensures r >= |text| || IsWord(UnitAt(text, r), undefinedIsWord) != target
    decreases |text| - i
  {
    if i < |text| && IsWord(UnitAt(text, i), undefinedIsWord) == target then
      RightRun(text, i + 1, target, undefinedIsWord)
    else
      i
  }

  /** Every unit the rightward loop steps over has class `target`. */
  lemma {:induction false} RightRunUniform(text: string, i: int, target: bool, undefinedIsWord: bool)
    ensures forall k :: i <= k < RightRun(text, i, target, undefinedIsWord) ==> IsWord(UnitAt(text, k), undefinedIsWord) == target
    decreases |text| - i
  {
    if i < |text| && IsWord(UnitAt(text, i), undefinedIsWord) == target {
      RightRunUniform(text, i + 1, target, undefinedIsWord);
    }
  }

  /** What `findWordBoundary(text, index, direction)` returns; `None` stands
      for a non-string `text`. */
  function WordBoundary(text: Option<string>, index: int, direction: int, undefinedIsWord: bool): int
  {
    match text
    case None => 0
    case Some(t) =>
      if direction < 0 then
        var i := Max(0, index - 1);
        LeftRun(t, i, IsWord(UnitAt(t, i), undefinedIsWord), undefinedIsWord)
      else
        var i := Min(|t|, index);
        RightRun(t, i, IsWord(UnitAt(t, i), undefinedIsWord) || IsWord(UnitAt(t, i - 1), undefinedIsWord), undefinedIsWord)
  }

  /** The scan itself, with the two index loops of the source. */
  method FindWordBoundary(text: Option<string>, index: int, direction: int, undefinedIsWord: bool) returns (r: int)
    ensures r == WordBoundary(text, index, direction, undefinedIsWord)
    ensures text.None? ==> r == 0
    ensures text.Some? && direction < 0 ==> 0 <= r <= Max(0, index - 1)
    ensures text.Some? && direction >= 0 ==> Min(|text.value|, index) <= r <= Max(Min(|text.value|, index), |text.value|)
  {
    if text.None? {
      return 0;
    }
    if direction < 0 {
      r := ScanLeft(text.value, index, undefinedIsWord);
    } else {
      r := ScanRight(text.value, index, undefinedIsWord);
    }
  }

  /** The leftward loop of `findWordBoundary`. */
  method ScanLeft(t: string, index: int, undefinedIsWord: bool) returns (r: int)
    ensures r == WordBoundary(Some(t), index, -1, undefinedIsWord)
    ensures 0 <= r <= Max(0, index - 1)
  {
    var i := Max(0, index - 1);
    var target := IsWord(UnitAt(t, i), undefinedIsWord);
    while i > 0 && IsWord(UnitAt(t, i - 1), undefinedIsWord) == target
      invariant 0 <= i <= Max(0, index - 1)
      invariant LeftRun(t, i, target, undefinedIsWord) == LeftRun(t, Max(0, index - 1), target, undefinedIsWord)
      decreases i
    {
      i := i - 1;
    }
    return i;
  }

  /** The rightward loop of `findWordBoundary`. */
  method ScanRight(t: string, index: int, undefinedIsWord: bool) returns (r: int)
    ensures r == WordBoundary(Some(t), index, 1, undefinedIsWord)
    ensures Min(|t|, index) <= r <= Max(Min(|t|, index), |t|)
  {
    var i := Min(|t|, index);
    var target := IsWord(UnitAt(t, i), undefinedIsWord) || IsWord(UnitAt(t, i - 1), undefinedIsWord);
    while i < |t| && IsWord(UnitAt(t, i), undefinedIsWord) == target
      invariant Min(|t|, index) <= i <= Max(Min(|t|, index), |t|)
      invariant RightRun(t, i, target, undefinedIsWord) == RightRun(t, Min(|t|, index), target, undefinedIsWord)
      decreases |t| - i
    {
      i := i + 1;
    }
    return i;
  }

  /** Leftward, the result lies in `[0, max(0, index-1)]`, every unit from it up
      to `max(0, index-1)` has the class of `text[max(0, index-1)]`, and the unit
      before it (if any) has the other class. */
  lemma LeftwardRun(text: string, index: int, undefinedIsWord: bool)
    ensures var start := Max(0, index - 1);
            var r := WordBoundary(Some(text), index, -1, undefinedIsWord);
            var cls := IsWord(UnitAt(text, start), undefinedIsWord);
            && 0 <= r <= start
            && (index >= 1 ==> r < index)
            && (forall k :: r <= k <= start ==> IsWord(UnitAt(text, k), undefinedIsWord) == cls)
            && (r == 0 || IsWord(UnitAt(text, r - 1), undefinedIsWord) != cls)
  {
  }

  /** Rightward, the result lies in `[min(|text|, index), |text|]` (for a
      non-negative index), the units passed over share the target class, and
      the scan stops at the end or at a unit of the other class. */
  lemma RightwardRun(text: string, index: int, undefinedIsWord: bool)
    requires index >= 0
    ensures var i := Min(|text|, index);
            var target := IsWord(UnitAt(text, i), undefinedIsWord) || IsWord(UnitAt(text, i - 1), undefinedIsWord);
            var r := WordBoundary(Some(text), index, 1, undefinedIsWord);
            && i <= r <= |text|
            && (forall k :: i <= k < r ==> IsWord(UnitAt(text, k), undefinedIsWord) == target)
            && (r == |text| || IsWord(UnitAt(text, r), undefinedIsWord) != target)
  {
    var i := Min(|text|, index);
    var target := IsWord(UnitAt(text, i), undefinedIsWord) || IsWord(UnitAt(text, i - 1), undefinedIsWord);
    RightRunUniform(text, i, target, undefinedIsWord);
  }

  /** The quirk shared by both variants: rightward from just behind a word
      unit onto a non-word unit, the caret does not move. */
  lemma RightwardStopsAfterWord(text: string, index: int, undefinedIsWord: bool)
    requires 1 <= index < |text|
    requires IsWordUnit(text[index - 1]) && !IsWordUnit(text[index])
    ensures WordBoundary(Some(text), index, 1, undefinedIsWord) == index
  {
  }

  /** As written in editor-core.js: rightward from column 0 of a line that
      starts with a non-word unit, `text[-1]` is `undefined`, counts as a word
      unit, and the caret stays at 0. */
  lemma CoreRightwardStuckAtLineStart()
    ensures WordBoundary(Some(" ab"), 0, 1, true) == 0
    ensures WordBoundary(Some(" ab"), 0, 1, false) == 1
  {
    assert RightRun(" ab", 0, true, true) == 0;
    assert RightRun(" ab", 1, false, false) == 1 by {
      assert UnitAt(" ab", 1) == Some('a');
    }
    assert RightRun(" ab", 0, false, false) == 1;
  }

  /** With `undefined` as a non-word unit (word-boundary.js), a rightward
      scan from column 0 of a non-empty string always advances. */
  lemma RightwardFromStartAdvances(text: string)
    requires |text| > 0
    ensures WordBoundary(Some(text), 0, 1, false) > 0
  {
    var target := IsWord(UnitAt(text, 0), false) || IsWord(UnitAt(text, -1), false);
    assert target == IsWord(UnitAt(text, 0), false);
    assert RightRun(text, 0, target, false) == RightRun(text, 1, target, false);
  }
}
