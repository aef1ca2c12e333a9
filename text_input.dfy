/**
 * Committed text input (`processCommittedText`): a commit made only of
 * spaces (U+0020 or the ideographic space U+3000), possibly followed by
 * line breaks, typed at column 0 indents instead of inserting; everything
 * else is inserted. The editor call the input turns into is returned as a
 * command value.
 */
module TextInput {
  import opened JsString
  import opened Util

  /** The single editor call a commit results in. */
  datatype Command =
    | ChangeIndent(delta: nat, applyToSelection: bool, includeChildren: bool)
    | InsertText(text: string)

  /** A unit of `/^[ 　]+$/`. */
  predicate IsIndentSpace(c: char)
  {
    c == ' ' || c == '　'
  }

  /** `handleLeadingSpaceIndentInput(text)` with the caret column and
      `hasSelection()` passed in: the `changeIndent` call it makes, or
      `None` where it returns false. */
  function LeadingSpaceIndent(text: string, charIndex: nat, hasSelection: bool): (r: Option<Command>)
    ensures r.Some? ==> r.value.ChangeIndent? && r.value.delta > 0
                        && r.value.applyToSelection == hasSelection && !r.value.includeChildren
  {
    if text == [] then None
    else
      var segments := Split(text, '\n');
      var first := segments[0];
      var hasExtraContent := exists k :: 1 <= k < |segments| && |segments[k]| > 0;
      if first == [] || !(forall k :: 0 <= k < |first| ==> IsIndentSpace(first[k])) then None
      else if hasExtraContent then None
      else if charIndex != 0 then None
      else Some(ChangeIndent(|first|, hasSelection, false))
  }

  /** `processCommittedText(text)`: `None` where it returns false, else the
      call it makes before returning true. */
  function ProcessCommittedText(text: string, charIndex: nat, hasSelection: bool): (r: Option<Command>)
    ensures r.None? <==> text == []
    ensures r.Some? && r.value.InsertText? ==> |r.value.text| == |text| - CrlfCount(text)
  {
    if text == [] then None
    else
      var normalized := NormalizeNewlines(text);
      match LeadingSpaceIndent(normalized, charIndex, hasSelection)
      case Some(indent) => Some(indent)
      case None => Some(InsertText(normalized))
  }

  function Newlines(m: nat): (r: string)
    ensures |r| == m && forall k :: 0 <= k < m ==> r[k] == '\n'
  {
    seq(m, _ => '\n')
  }

  function Blanks(m: nat): (r: seq<string>)
    ensures |r| == m && forall k :: 0 <= k < m ==> r[k] == ""
  {
    seq(m, _ => "")
  }

  /** Joining a piece with `m` empty pieces appends `m` line breaks. */
  lemma {:induction false} JoinBlanks(a: string, m: nat)
    ensures Join([a] + Blanks(m), '\n') == a + Newlines(m)
    decreases m
  {
    if m > 0 {
      JoinBlanks(a, m - 1);
      assert [a] + Blanks(m) == ([a] + Blanks(m - 1)) + [""];
      JoinSnoc([a] + Blanks(m - 1), "", '\n');
      assert Newlines(m) == Newlines(m - 1) + "\n";
    }
  }

  /** What an indenting commit looks like: `delta` indent spaces, then only
      line breaks. */
  predicate IndentShape(text: string, delta: nat)
  {
    && 0 < delta <= |text|
    && (forall k :: 0 <= k < delta ==> IsIndentSpace(text[k]))
    && (forall k :: delta <= k < |text| ==> text[k] == '\n')
  }

  /** An indent is issued only at column 0, for a commit of the indent shape,
      by the number of its space units. */
  lemma LeadingSpaceIndentSound(text: string, charIndex: nat, hasSelection: bool)
    ensures var r := LeadingSpaceIndent(text, charIndex, hasSelection);
            r.Some? ==> charIndex == 0 && IndentShape(text, r.value.delta)
  {
    var r := LeadingSpaceIndent(text, charIndex, hasSelection);
    if r.Some? {
      var segments := Split(text, '\n');
      var first := segments[0];
      var m := |segments| - 1;
      assert segments == [first] + Blanks(m) by {
        forall k | 1 <= k < |segments|
          ensures segments[k] == ""
        {
          assert !(|segments[k]| > 0);
        }
      }
      JoinSplit(text, '\n');
      JoinBlanks(first, m);
      assert text == first + Newlines(m);
      assert r.value.delta == |first|;
      assert forall k :: 0 <= k < |first| ==> text[k] == first[k];
    }
  }

  /** Conversely, every commit of the indent shape at column 0 indents by its
      number of space units. */
  lemma LeadingSpaceIndentComplete(text: string, delta: nat, hasSelection: bool)
    requires IndentShape(text, delta)
    ensures LeadingSpaceIndent(text, 0, hasSelection) == Some(ChangeIndent(delta, hasSelection, false))
  {
    var a := text[..delta];
    var m := |text| - delta;
    assert text == a + Newlines(m);
    assert '\n' !in a by {
      forall k | 0 <= k < |a| ensures a[k] != '\n' { assert IsIndentSpace(text[k]); }
    }
    var parts := [a] + Blanks(m);
    assert forall i :: 0 <= i < |parts| ==> '\n' !in parts[i] by {
      forall i | 0 <= i < |parts| ensures '\n' !in parts[i] {
        if i > 0 { assert parts[i] == ""; }
      }
    }
    JoinBlanks(a, m);
    SplitJoin(parts, '\n');
    assert Split(text, '\n') == parts;
    assert forall k :: 1 <= k < |parts| ==> parts[k] == "";
  }

  /** Away from column 0 no commit indents. */
  lemma NoIndentOffColumnZero(text: string, charIndex: nat, hasSelection: bool)
    requires charIndex != 0
    ensures ProcessCommittedText(text, charIndex, hasSelection)
            == if text == [] then None else Some(InsertText(NormalizeNewlines(text)))
  {
    LeadingSpaceIndentSound(NormalizeNewlines(text), charIndex, hasSelection);
  }

  /** A commit without CR is inserted unchanged unless it has the indent shape. */
  lemma CommitWithoutCrlf(text: string, charIndex: nat, hasSelection: bool)
    requires text != [] && CrlfCount(text) == 0
    ensures var r := ProcessCommittedText(text, charIndex, hasSelection);
            r.value.InsertText? ==> r.value.text == text
    ensures var r := ProcessCommittedText(text, charIndex, hasSelection);
            r.value.ChangeIndent? ==> charIndex == 0 && IndentShape(text, r.value.delta)
  {
    LeadingSpaceIndentSound(text, charIndex, hasSelection);
  }

  /** The commits of the input tests: an ideographic space at column 0
      indents by one, and at column 2 it is inserted. */
  lemma IdeographicSpaceCommit()
    ensures ProcessCommittedText("　", 0, false) == Some(ChangeIndent(1, false, false))
    ensures ProcessCommittedText("　", 2, false) == Some(InsertText("　"))
  {
    assert NormalizeNewlines("　") == "　";
    LeadingSpaceIndentComplete("　", 1, false);
    LeadingSpaceIndentSound("　", 2, false);
  }

  /** "abc" is inserted. */
  lemma PlainCommit()
    ensures ProcessCommittedText("abc", 0, false) == Some(InsertText("abc"))
  {
    assert NormalizeNewlines("abc") == "abc" by {
      assert CrlfCount("abc") == 0 by { assert "abc"[1..] == "bc"; assert "bc"[1..] == "c"; }
    }
    LeadingSpaceIndentSound("abc", 0, false);
  }

  /** A space followed by a further non-empty line is inserted verbatim. */
  lemma SpaceWithContentCommit()
    ensures ProcessCommittedText("　\nX", 0, false) == Some(InsertText("　\nX"))
  {
    var x := "　\nX";
    assert NormalizeNewlines(x) == x by {
      assert CrlfCount(x) == 0 by { assert x[1..] == "\nX"; assert x[1..][1..] == "X"; }
    }
    LeadingSpaceIndentSound(x, 0, false);
  }
}
